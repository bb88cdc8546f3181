/** What a receiver hands up, in numbers and bytes alone, and what a network that loses nothing delivers. */
module PptpDelivery {
  import opened Bytes
  import opened PptpWire
  import opened PptpChannel
  import opened PptpRun

  /** A packet is delivered in sequence exactly when its number is higher than the last one and not among
      the last 256 while that one is among the first 256. */
  lemma DeliveredIff(r: Opt, d: Datagram, slack: seq<byte>)
    requires WellFormed(d.frame) && r.srcCall == d.callId && SLACK <= |slack| && r.seqRecv < 0xffff_ffff
    ensures var (r', v) := Received(r, d.Octets(), slack);
      && (v == Delivered(d.frame, true) <==> r.seqRecv < d.seqno && !(r.seqRecv < 0x100 && d.seqno >= 0xffff_ff00))
      && r'.seqRecv == if v == Delivered(d.frame, true) then d.seqno else r.seqRecv
  {
    ReceivedHasOutcome(r, d, slack);
  }

  /** Any other packet of the call is delivered out of sequence exactly when it is an LCP echo, 09 or 0A after
      the protocol C021, whose address and control field is not left out; otherwise it is dropped. */
  lemma OldDeliveredIff(r: Opt, d: Datagram, slack: seq<byte>)
    requires WellFormed(d.frame) && r.srcCall == d.callId && SLACK <= |slack| && r.seqRecv < 0xffff_ffff
    requires !(r.seqRecv < d.seqno && !(r.seqRecv < 0x100 && d.seqno >= 0xffff_ff00))
    ensures var f := d.frame;
      Received(r, d.Octets(), slack).1 ==
      if f[0] == 0xc0 && f[1] == 0x21 && f[2] in [0x09, 0x0a] && !d.flags.compAc then Delivered(f, false) else Dropped
  {
    HeaderRoundTrip(d);
    PayloadRoundTrip(d.frame, d.flags, slack);
    WellFormedIsRestorable(d.frame, d.flags, slack[0]);
    EchoIff(d.frame, d.flags, slack);
  }

  lemma EchoIff(f: Frame, fl: Flags, slack: seq<byte>)
    requires WellFormed(f) && SLACK <= |slack|
    ensures LooksLikeEcho(Payload(f, fl), slack) <==> f[0] == 0xc0 && f[1] == 0x21 && f[2] in [0x09, 0x0a] && !fl.compAc
  {
    var payload := Payload(f, fl);
    if !fl.compAc || IsLcpControl(f) {
      assert payload[2..] == Compressed(f, fl);
    }
  }

  // ---------- packets that are not delivered ----------

  /** A packet of another call changes nothing. */
  lemma ForeignCallIgnored(r: Opt, d: Datagram, slack: seq<byte>)
    requires d.Valid() && r.srcCall != d.callId && SLACK <= |slack|
    ensures Received(r, d.Octets(), slack) == (r, Rejected)
  {
    HeaderRoundTrip(d);
  }

  lemma ShortPacketDropped(r: Opt, q: seq<byte>, slack: seq<byte>)
    requires HeaderPresent(q) && HeaderAccepted(q) && CallId(q) == r.srcCall && HasSeq(q) && Truncated(q)
    requires SLACK <= |slack|
    ensures var (r', v) := Received(r, q, slack); v == Dropped && r'.seqRecv == r.seqRecv
  {
    hide HeaderAccepted, Truncated, CallId, Unframe, LooksLikeEcho, InSequence;
  }

  lemma CutIsTruncated(p: seq<byte>, m: nat)
    requires HeaderPresent(p) && HasSeq(p) && HeaderSize(p) <= m < |p| && U16At(p, 4) == |p| - HeaderSize(p)
    ensures HeaderPresent(p[..m]) && HasSeq(p[..m]) && Truncated(p[..m])
  {
    SameHeader(p, m);
  }

  /** A packet that lost bytes at its end is dropped, and its number not noted. */
  lemma CutPacketDropped(r: Opt, d: Datagram, m: nat, slack: seq<byte>)
    requires d.Valid() && r.srcCall == d.callId && SLACK <= |slack| && |Payload(d.frame, d.flags)| < 0x1_0000
    requires |d.Header()| <= m < |d.Octets()|
    ensures HeaderPresent(d.Octets()[..m])
    ensures var (r', v) := Received(r, d.Octets()[..m], slack); v == Dropped && r'.seqRecv == r.seqRecv
  {
    hide HeaderAccepted, HasSeq, HasAck, CallId, Payload, U16At, Received, Truncated, Word;
    HeaderRoundTrip(d);
    Layout(d);
    SameHeader(d.Octets(), m);
    CutIsTruncated(d.Octets(), m);
    ShortPacketDropped(r, d.Octets()[..m], slack);
  }

  lemma SameHeader(p: seq<byte>, m: nat)
    requires HeaderPresent(p) && HasSeq(p) && HeaderSize(p) <= m <= |p|
    ensures var q := p[..m];
      && HeaderPresent(q) && (HeaderAccepted(q) <==> HeaderAccepted(p)) && HasSeq(q) && (HasAck(q) <==> HasAck(p))
      && HeaderSize(q) == HeaderSize(p) && CallId(q) == CallId(p) && U16At(q, 4) == U16At(p, 4)
  {
    var q := p[..m];
    assert forall i :: 0 <= i < 8 ==> q[i] == p[i];
  }

  /** The header of section 4.1 of RFC 2637, byte by byte: flags K and S and version 1, protocol 880B, length
      and call number, sequence number, and the acknowledgement with its flag A if there is one. */
  lemma Layout(d: Datagram)
    requires d.Valid()
    ensures var p, h := d.Octets(), if d.ack.Some? then 16 else 12;
      && |p| == h + |Payload(d.frame, d.flags)| && |d.Header()| == h
      && p[0] == 0x30 && p[1] == (if d.ack.Some? then 0x81 else 0x01) && p[2] == 0x88 && p[3] == 0x0b
      && U16At(p, 4) == p[4] as int * 0x100 + p[5] as int == |Payload(d.frame, d.flags)| % 0x1_0000
      && p[6] as int * 0x100 + p[7] as int == d.callId
      && Word(p[8], p[9], p[10], p[11]) == d.seqno
      && (d.ack.Some? ==> Word(p[12], p[13], p[14], p[15]) == d.ack.value)
  {
    HeaderRoundTrip(d);
    var p, h := d.Octets(), d.Header();
    assert forall i :: 0 <= i < |h| ==> p[i] == h[i];
    var n := |Payload(d.frame, d.flags)| % 0x1_0000;
    assert h[4] == n / 0x100 && h[5] == n % 0x100 && h[2] == 0x88 && h[3] == 0x0b;
  }

  function Word(a: byte, b: byte, c: byte, d: byte): int {
    a as int * 0x100_0000 + b as int * 0x1_0000 + c as int * 0x100 + d as int
  }

  /** Sections 6.5 and 6.6 of RFC 1661: LCP packets with codes 1 to 7 are never compressed; of all others the
      address and control field is left out, and a first protocol byte of zero, as the flags say. */
  lemma PayloadIs(f: Frame, fl: Flags)
    requires Sendable(f)
    ensures var plain := f[0] == 0xc0 && f[1] == 0x21 && 1 <= f[2] <= 7;
      && |f| - 1 <= |Payload(f, fl)| <= |f| + 2
      && (plain || !fl.compAc <==> [0xff, 0x03] <= Payload(f, fl) && |Payload(f, fl)| > |f|)
      && (plain ==> Payload(f, fl) == [0xff, 0x03] + f)
      && (!plain && fl.compProt && f[0] == 0 ==> Payload(f, fl) == (if fl.compAc then [] else [0xff, 0x03]) + f[1..])
      && (!plain && !(fl.compProt && f[0] == 0) ==> Payload(f, fl) == (if fl.compAc then [] else [0xff, 0x03]) + f)
  {
    assert [] + f == f && [] + f[1..] == f[1..];
  }

  /** A packet is refused exactly when it is not version 1 of protocol 880B with key, without checksum and
      routing and with no other bits set, or when it is for another call. */
  lemma RejectedIff(r: Opt, p: seq<byte>, slack: seq<byte>)
    requires HeaderPresent(p) && SLACK <= |slack|
    ensures Received(r, p, slack).1 == Rejected <==>
            !(p[0] in [0x20, 0x30] && p[1] in [0x01, 0x81] && p[2] == 0x88 && p[3] == 0x0b
              && p[6] as int * 0x100 + p[7] as int == r.srcCall)
  {
    FlagsOf(p[0]);
    hide Unframe, LooksLikeEcho, Truncated, AfterAck, Bit;
  }

  lemma FlagsOf(b: byte)
    ensures !Bit(b, 0x80) && !Bit(b, 0x40) && Bit(b, 0x20) && b % 0x10 == 0 <==> b in [0x20, 0x30]
  {
  }

  /** A packet with an acknowledgement and no data is dropped; the acknowledgement, which stands in the place
      of the sequence number, is recorded if it is higher, or among the first 256 after the last 256. */
  lemma BareAck(r: Opt, p: seq<byte>, slack: seq<byte>)
    requires |p| >= 12 && SLACK <= |slack| && p[0] == 0x20 && p[1] == 0x81 && p[2] == 0x88 && p[3] == 0x0b
    requires p[6] as int * 0x100 + p[7] as int == r.srcCall
    ensures HeaderPresent(p)
    ensures var ack := Word(p[8], p[9], p[10], p[11]);
      Received(r, p, slack) ==
      (if ack > r.ackRecv || (ack < 0x100 && r.ackRecv >= 0xffff_ff00) then r.(ackRecv := ack) else r, Dropped)
  {
  }

  /** A packet carries the next number and, exactly when something was received since the last one sent, an
      acknowledgement of all that was. */
  lemma AckCarriedIff(o: Opt, f: Frame)
    requires Sendable(f) && o.seqSent < 0xffff_ffff
    ensures var (o', d) := Sent(o, f);
      && d.callId == o.dstCall && d.frame == f && d.seqno == o'.seqSent == o.seqSent + 1
      && (d.ack == None <==> o.ackSent == o.seqRecv) && (d.ack.Some? ==> d.ack.value == o.seqRecv)
      && o'.ackSent == o'.seqRecv == o.seqRecv && Sent(o', f).1.ack == None
  {
  }

  // ---------- a network that loses nothing ----------

  /** How many packets have been delivered to the second end. */
  function Count(steps: seq<Step>): (n: nat)
  {
    if steps == [] then 0
    else
      var s := steps[|steps| - 1];
      Count(steps[..|steps| - 1]) + if s.Deliver? && !s.atA then 1 else 0
  }

  /** The packets delivered to the second end are the first, the second and so on, each once. */
  ghost predicate InOrder(steps: seq<Step>) {
    forall i :: 0 <= i < |steps| && steps[i].Deliver? && !steps[i].atA ==>
      steps[i].packet.seqno == Count(steps[..i]) + 1
  }

  /** The log of in-sequence deliveries of the first n frames. */
  function Whole(sent: seq<Frame>, n: nat): (r: seq<Entry>)
    requires n <= |sent| && n < 0x1_0000_0000
    ensures |r| == n
  {
    seq(n, i requires 0 <= i < n => Entry(i + 1, sent[i], true))
  }

  lemma DeliverNext(w: World, d: Datagram, slack: seq<byte>)
    requires Inv(w) && |w.a.sent| < 0xffff_ff00 && Enabled(w, Deliver(false, d, slack))
    requires d.seqno == w.b.opt.seqRecv + 1 && w.b.opt.seqRecv <= |w.a.sent|
    requires w.b.log == Whole(w.a.sent, w.b.opt.seqRecv)
    ensures var w' := Next(w, Deliver(false, d, slack));
      && w'.a == w.a && w'.b.opt.seqRecv == d.seqno <= |w.a.sent| && w'.b.log == Whole(w.a.sent, d.seqno)
  {
    hide Inv, Received, Whole, PptpWire.WellFormed, Carries;
    OnTheWire(w, d);
    DeliveredIff(w.b.opt, d, slack);
    OneMoreWhole(w.a.sent, d);
  }

  lemma OnTheWire(w: World, d: Datagram)
    requires Inv(w) && d in w.toB
    ensures d.callId == w.b.opt.srcCall && Carries(w.a.sent, d.seqno, d.frame) && WellFormed(d.frame)
  {
  }

  lemma OneMoreWhole(sent: seq<Frame>, d: Datagram)
    requires Carries(sent, d.seqno, d.frame)
    ensures 1 <= d.seqno <= |sent| && Whole(sent, d.seqno) == Whole(sent, d.seqno - 1) + [Entry(d.seqno, d.frame, true)]
  {
  }

  /** The other steps leave the log and the last number of the second end. */
  lemma OtherStep(w: World, s: Step)
    requires Enabled(w, s) && !(s.Deliver? && !s.atA)
    ensures var w' := Next(w, s);
      && w'.b.log == w.b.log && w'.b.opt.seqRecv == w.b.opt.seqRecv && w.a.sent <= w'.a.sent
  {
  }

  lemma WholeOfMore(sent: seq<Frame>, more: seq<Frame>, n: nat)
    requires n <= |sent| && sent <= more && n < 0x1_0000_0000
    ensures Whole(sent, n) == Whole(more, n)
  {
  }

  /** In a run in which every packet to the second end is delivered once and in order, with fewer than
      2^32 - 256 frames, exactly the frames delivered are handed up, in order and unchanged, whatever else
      happens in the other direction; when all have been delivered, these are all that were sent. */
  lemma {:induction false} LosslessDeliversAll(ws: seq<World>, steps: seq<Step>)
    requires IsRun(ws, steps) && Bounded(ws[|steps|]) && |ws[|steps|].a.sent| < 0xffff_ff00 && InOrder(steps)
    ensures var w := ws[|steps|];
      && Count(steps) == w.b.opt.seqRecv <= |w.a.sent| && w.b.log == Whole(w.a.sent, Count(steps))
    decreases |steps|
  {
    hide Next, Enabled, Inv;
    if steps != [] {
      var n := |steps| - 1;
      var w, s := ws[n], steps[n];
      assert ws[n + 1] == Next(w, s);
      SentGrows(w, s);
      var front := steps[..n];
      forall i | 0 <= i < n
        ensures front[..i] == steps[..i]
      {
      }
      LosslessDeliversAll(ws[..n + 1], front);
      RunKeepsInv(ws[..n + 1], front);
      if s.Deliver? && !s.atA {
        DeliverNext(w, s.packet, s.slack);
      } else {
        OtherStep(w, s);
        WholeOfMore(w.a.sent, ws[n + 1].a.sent, Count(steps));
      }
    }
  }

  lemma SentGrows(w: World, s: Step)
    requires Enabled(w, s)
    ensures w.a.sent <= Next(w, s).a.sent && w.b.sent <= Next(w, s).b.sent
  {
  }

  function Turned(s: Step): Step {
    s.(atA := !s.atA)
  }

  lemma TurnedStep(w: World, s: Step)
    requires Enabled(w, s)
    ensures Enabled(Mirror(w), Turned(s)) && Next(Mirror(w), Turned(s)) == Mirror(Next(w, s))
  {
    assert Turned(s).(atA := true) == s.(atA := true);
  }

  /** The ends can be exchanged in any run, so all that is said of one direction holds of the other. */
  lemma TurnedRun(ws: seq<World>, steps: seq<Step>)
    requires IsRun(ws, steps)
    ensures IsRun(seq(|ws|, i requires 0 <= i < |ws| => Mirror(ws[i])),
                  seq(|steps|, i requires 0 <= i < |steps| => Turned(steps[i])))
  {
    hide Next, Enabled;
    forall i | 0 <= i < |steps|
      ensures Enabled(Mirror(ws[i]), Turned(steps[i])) && Mirror(ws[i + 1]) == Next(Mirror(ws[i]), Turned(steps[i]))
    {
      TurnedStep(ws[i], steps[i]);
    }
  }
}
