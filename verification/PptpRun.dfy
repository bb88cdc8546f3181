/** Two connected sessions over a network that may lose, duplicate and reorder packets but not forge
    them. */
module PptpRun {
  import opened Bytes
  import opened PptpWire
  import opened PptpChannel

  /** A frame handed to `ppp_input`, with the number of the packet it came in. */
  datatype Entry = Entry(seqno: u32, frame: Frame, inSequence: bool)

  /** One end: its session variables, the frames it was given to send, the frames it handed up. */
  datatype Peer = Peer(opt: Opt, sent: seq<Frame>, log: seq<Entry>)

  /** Everything ever put on the network stays available: a packet never delivered is lost, one
      delivered twice is duplicated, and the order of delivery is free. */
  datatype World = World(a: Peer, b: Peer, toB: set<Datagram>, toA: set<Datagram>)

  datatype Step =
    | Send(atA: bool, frame: Frame)
    | Deliver(atA: bool, packet: Datagram, slack: seq<byte>)
    | SetFlags(atA: bool, flags: Flags)

  function Mirror(w: World): World {
    World(w.b, w.a, w.toA, w.toB)
  }

  predicate Blank(p: Peer) {
    p.opt == Opt(0, 0, 0, 0, p.opt.flags, p.opt.srcCall, p.opt.dstCall) && p.sent == [] && p.log == []
  }

  /** Two new sessions, each connected to the call of the other. */
  predicate Initial(w: World) {
    && Blank(w.a) && Blank(w.b) && w.toA == w.toB == {}
    && w.a.opt.dstCall == w.b.opt.srcCall && w.b.opt.dstCall == w.a.opt.srcCall
  }

  predicate Enabled(w: World, s: Step) {
    match s
    case Send(_, f) => WellFormed(f)
    case Deliver(atA, d, slack) => SLACK <= |slack| && d in (if atA then w.toA else w.toB) && d.Valid()
    case SetFlags(_, _) => true
  }

  /** The step at the first peer; the other side takes its steps in the mirrored world. */
  function StepA(w: World, s: Step): (w': World)
    requires Enabled(w, s) && s.atA
  {
    match s
    case Send(_, f) =>
      var (o, d) := Sent(w.a.opt, f);
      w.(a := w.a.(opt := o, sent := w.a.sent + [f]), toB := w.toB + {d})
    case Deliver(_, d, slack) =>
      var (o, v) := Received(w.a.opt, d.Octets(), slack);
      w.(a := w.a.(opt := o, log := w.a.log + LogEntry(d, v)))
    case SetFlags(_, fl) =>
      w.(a := w.a.(opt := w.a.opt.(flags := fl)))
  }

  function Next(w: World, s: Step): (w': World)
    requires Enabled(w, s)
  {
    if s.atA then StepA(w, s) else Mirror(StepA(Mirror(w), s.(atA := true)))
  }

  ghost predicate IsRun(ws: seq<World>, steps: seq<Step>) {
    && |ws| == |steps| + 1 && Initial(ws[0])
    && forall i :: 0 <= i < |steps| ==> Enabled(ws[i], steps[i]) && ws[i + 1] == Next(ws[i], steps[i])
  }

  /** Fewer than 2^32 - 1 frames each way. */
  predicate Bounded(w: World) {
    |w.a.sent| < ALL_ONES && |w.b.sent| < ALL_ONES
  }

  // ---------- the invariant of one direction ----------

  /** The in-sequence part of a log, as the packet numbers. */
  function Fresh(log: seq<Entry>): (r: seq<Entry>) {
    if log == [] then []
    else
      var rest := Fresh(log[..|log| - 1]);
      if log[|log| - 1].inSequence then rest + [log[|log| - 1]] else rest
  }

  ghost predicate Increasing(es: seq<Entry>) {
    forall i, j :: 0 <= i < j < |es| ==> es[i].seqno < es[j].seqno
  }

  ghost predicate Carries(sent: seq<Frame>, seqno: u32, f: Frame) {
    1 <= seqno <= |sent| && f == sent[seqno - 1]
  }

  /** A log holds only frames that were sent, its in-sequence part numbered upwards to `last`. */
  ghost predicate LogInv(sent: seq<Frame>, log: seq<Entry>, last: u32) {
    && last <= |sent|
    && (forall e :: e in log ==> Carries(sent, e.seqno, e.frame) && (!e.inSequence ==> IsLcpEcho(e.frame)))
    && Increasing(Fresh(log))
    && (forall e :: e in Fresh(log) ==> e in log && 1 <= e.seqno <= last)
  }

  ghost predicate WireInv(s: Peer, wire: set<Datagram>) {
    forall d :: d in wire ==>
      && d.callId == s.opt.dstCall && Carries(s.sent, d.seqno, d.frame)
      && (d.ack.Some? ==> d.ack.value <= s.opt.ackSent)
  }

  /** `s` sends to `r`, over `wire`. */
  ghost predicate LinkInv(s: Peer, r: Peer, wire: set<Datagram>) {
    && s.opt.dstCall == r.opt.srcCall
    && s.opt.seqSent == |s.sent|
    && (forall f :: f in s.sent ==> WellFormed(f))
    && WireInv(s, wire)
    && s.opt.ackRecv <= r.opt.ackSent
    && s.opt.ackSent <= s.opt.seqRecv
    && LogInv(s.sent, r.log, r.opt.seqRecv)
  }

  ghost predicate Inv(w: World) {
    LinkInv(w.a, w.b, w.toB) && LinkInv(w.b, w.a, w.toA)
  }

  lemma SendKeepsInv(w: World, f: Frame)
    requires Inv(w) && WellFormed(f) && Bounded(StepA(w, Send(true, f)))
    ensures Inv(StepA(w, Send(true, f)))
  {
    var w' := StepA(w, Send(true, f));
    assert w'.a.sent[|w.a.sent|] == f;
    forall d | d in w'.toB
      ensures
        && d.callId == w'.a.opt.dstCall && Carries(w'.a.sent, d.seqno, d.frame)
        && (d.ack.Some? ==> d.ack.value <= w'.a.opt.ackSent)
    {
    }
  }

  /** What reception makes of a well-formed frame, in terms of its packet's numbers. */
  ghost predicate Outcome(o: Opt, d: Datagram, o': Opt, v: Verdict) {
    var o1 := if d.ack.Some? then AfterAck(o, d.ack.value) else o;
    if InSequence(o, d.seqno) then o' == o1.(seqRecv := d.seqno) && v == Delivered(d.frame, true)
    else o' == o1 && (v == Dropped || (v == Delivered(d.frame, false) && IsLcpEcho(d.frame)))
  }

  lemma ReceivedHasOutcome(o: Opt, d: Datagram, slack: seq<byte>)
    requires d.Valid() && WellFormed(d.frame) && SLACK <= |slack| && d.callId == o.srcCall
    ensures var (o', v) := Received(o, d.Octets(), slack); Outcome(o, d, o', v)
  {
    HeaderRoundTrip(d);
    PayloadRoundTrip(d.frame, d.flags, slack);
    WellFormedIsRestorable(d.frame, d.flags, slack[0]);
    if LooksLikeEcho(Payload(d.frame, d.flags), slack) {
      OldPacketsAreEchoes(d.frame, d.flags, slack);
    }
  }

  lemma FreshSnoc(log: seq<Entry>, e: Entry)
    ensures Fresh(log + [e]) == Fresh(log) + if e.inSequence then [e] else []
  {
    assert (log + [e])[..|log|] == log;
  }

  lemma LogGrows(sent: seq<Frame>, log: seq<Entry>, last: u32, e: Entry)
    requires LogInv(sent, log, last) && Carries(sent, e.seqno, e.frame)
    requires if e.inSequence then e.seqno > last else IsLcpEcho(e.frame)
    ensures LogInv(sent, log + [e], if e.inSequence then e.seqno else last)
  {
    FreshSnoc(log, e);
    var fs := Fresh(log);
    forall i, j | 0 <= i < j < |fs + [e]| && e.inSequence
      ensures (fs + [e])[i].seqno < (fs + [e])[j].seqno
    {
      assert fs[i] in fs;
    }
  }

  function LogEntry(d: Datagram, v: Verdict): (r: seq<Entry>) {
    if v.Delivered? then [Entry(d.seqno, v.frame, v.inSequence)] else []
  }

  /** The direction the packet travels in. */
  lemma DeliverKeepsDataLink(s: Peer, r: Peer, wire: set<Datagram>, d: Datagram, o': Opt, v: Verdict)
    requires LinkInv(s, r, wire) && d in wire && |s.sent| < ALL_ONES && Outcome(r.opt, d, o', v)
    ensures LinkInv(s, r.(opt := o', log := r.log + LogEntry(d, v)), wire) && o'.seqRecv >= r.opt.seqRecv
  {
    assert Carries(s.sent, d.seqno, d.frame);
    if v.Delivered? {
      LogGrows(s.sent, r.log, r.opt.seqRecv, Entry(d.seqno, d.frame, v.inSequence));
    } else {
      assert r.log + [] == r.log;
    }
  }

  /** The direction its acknowledgement speaks of: `r` has heard from `s`, to whom it sends. */
  lemma DeliverKeepsAckLink(r: Peer, s: Peer, wire: set<Datagram>, d: Datagram, o': Opt, v: Verdict)
    requires LinkInv(r, s, wire) && Outcome(r.opt, d, o', v) && o'.seqRecv >= r.opt.seqRecv
    requires d.ack.Some? ==> d.ack.value <= s.opt.ackSent
    ensures LinkInv(r.(opt := o', log := r.log + LogEntry(d, v)), s, wire)
  {
  }

  lemma DeliverKeepsInv(w: World, d: Datagram, slack: seq<byte>)
    requires Inv(w) && Bounded(w) && Enabled(w, Deliver(true, d, slack))
    ensures Inv(StepA(w, Deliver(true, d, slack)))
  {
    assert Carries(w.b.sent, d.seqno, d.frame);
    var (o', v) := Received(w.a.opt, d.Octets(), slack);
    ReceivedHasOutcome(w.a.opt, d, slack);
    DeliverKeepsDataLink(w.b, w.a, w.toA, d, o', v);
    DeliverKeepsAckLink(w.a, w.b, w.toB, d, o', v);
  }

  lemma StepKeepsInv(w: World, s: Step)
    requires Inv(w) && Enabled(w, s) && Bounded(Next(w, s))
    ensures Inv(Next(w, s))
  {
    var v := if s.atA then w else Mirror(w);
    match s
    case Send(_, f) => SendKeepsInv(v, f);
    case Deliver(_, d, slack) => DeliverKeepsInv(v, d, slack);
    case SetFlags(_, _) =>
  }

  /** The invariant holds at the end of every run with fewer than 2^32 - 1 frames each way. */
  lemma {:induction false} RunKeepsInv(ws: seq<World>, steps: seq<Step>)
    requires IsRun(ws, steps) && Bounded(ws[|steps|])
    ensures Inv(ws[|steps|])
    decreases |steps|
  {
    if |steps| > 0 {
      var n := |steps| - 1;
      assert ws[n + 1] == Next(ws[n], steps[n]);
      RunKeepsInv(ws[..n + 1], steps[..n]);
      StepKeepsInv(ws[n], steps[n]);
    }
  }

  // ---------- the promises, for every run ----------

  ghost predicate IncreasingIndices(idx: seq<nat>) {
    forall i, j :: 0 <= i < j < |idx| ==> idx[i] < idx[j]
  }

  /** `fs` are the frames of `sent` at strictly increasing places: in order, each at most once. */
  ghost predicate PicksInOrder(fs: seq<Entry>, sent: seq<Frame>, idx: seq<nat>) {
    && |idx| == |fs| && IncreasingIndices(idx)
    && forall i :: 0 <= i < |fs| ==> idx[i] < |sent| && fs[i].frame == sent[idx[i]]
  }

  ghost predicate OrderedDelivery(s: Peer, r: Peer) {
    && (exists idx :: PicksInOrder(Fresh(r.log), s.sent, idx))
    && forall e :: e in r.log && !e.inSequence ==> IsLcpEcho(e.frame) && e.frame in s.sent
  }

  lemma LinkDeliversInOrder(s: Peer, r: Peer, wire: set<Datagram>)
    requires LinkInv(s, r, wire)
    ensures OrderedDelivery(s, r)
  {
    var fs := Fresh(r.log);
    assert forall i :: 0 <= i < |fs| ==> fs[i] in fs && Carries(s.sent, fs[i].seqno, fs[i].frame);
    var idx := seq(|fs|, i requires 0 <= i < |fs| => fs[i].seqno - 1);
    assert PicksInOrder(fs, s.sent, idx);
  }

  /** Frames handed up by the in-sequence branch are a subsequence of the frames the other end sent,
      unchanged, in order and each at most once; anything handed up by the other branch is an LCP
      echo that was sent. */
  lemma DeliveryInOrder(ws: seq<World>, steps: seq<Step>)
    requires IsRun(ws, steps) && Bounded(ws[|steps|])
    ensures OrderedDelivery(ws[|steps|].a, ws[|steps|].b) && OrderedDelivery(ws[|steps|].b, ws[|steps|].a)
  {
    RunKeepsInv(ws, steps);
    var w := ws[|steps|];
    LinkDeliversInOrder(w.a, w.b, w.toB);
    LinkDeliversInOrder(w.b, w.a, w.toA);
  }

  /** No end believes more acknowledged than the other acknowledged, acknowledges more than it
      received, or received more than was sent. */
  lemma AckChain(ws: seq<World>, steps: seq<Step>)
    requires IsRun(ws, steps) && Bounded(ws[|steps|])
    ensures
      var w := ws[|steps|];
      && w.a.opt.ackRecv <= w.b.opt.ackSent <= w.b.opt.seqRecv <= w.a.opt.seqSent == |w.a.sent|
      && w.b.opt.ackRecv <= w.a.opt.ackSent <= w.a.opt.seqRecv <= w.b.opt.seqSent == |w.b.sent|
  {
    RunKeepsInv(ws, steps);
  }
}
