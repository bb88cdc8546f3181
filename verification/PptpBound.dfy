/** The bound on the length of a run is the largest: with one frame more, in-sequence delivery can be out
    of order and repeat a frame. */
module PptpBound {
  import opened Bytes
  import opened PptpWire
  import opened PptpChannel
  import opened PptpRun

  const PLAIN: Frame := [0, 0x21, 0]
  const MARKED: Frame := [0, 0x21, 1]
  const MARK: u32 := 0x100
  const QUIET := Flags(false, false)

  const START := World(
    Peer(Opt(0, 0, 0, 0, QUIET, 1, 2), [], []),
    Peer(Opt(0, 0, 0, 0, QUIET, 2, 1), [], []), {}, {})

  /** The k-th frame sent; one of them is unlike all others. */
  function FrameAt(k: nat): (f: Frame)
    ensures WellFormed(f)
  {
    if k == MARK then MARKED else PLAIN
  }

  function Packet(k: u32): Datagram {
    Datagram(2, k, None, FrameAt(k), QUIET)
  }

  /** After n frames from the first end. */
  function After(n: nat): World {
    if n == 0 then START else Next(After(n - 1), Send(true, FrameAt(n)))
  }

  lemma OneMoreSent(v: World, n: u32)
    requires n > 0 && v.a.opt == START.a.opt.(seqSent := n - 1)
    ensures var w := Next(v, Send(true, FrameAt(n)));
      w == v.(a := v.a.(opt := v.a.opt.(seqSent := n), sent := v.a.sent + [FrameAt(n)]), toB := v.toB + {Packet(n)})
  {
  }

  lemma {:induction false} AfterSends(n: nat)
    requires n <= ALL_ONES
    ensures var w := After(n);
      && w.a.opt == START.a.opt.(seqSent := n) && w.b == START.b
      && |w.a.sent| == n && (forall i :: 0 <= i < n ==> w.a.sent[i] == FrameAt(i + 1))
      && (forall k: u32 :: 1 <= k <= n ==> Packet(k) in w.toB)
  {
    hide Next, Packet;
    if n > 0 {
      AfterSends(n - 1);
      var v := After(n - 1);
      OneMoreSent(v, n);
    }
  }

  function Slack(): (s: seq<byte>)
    ensures |s| == SLACK
  {
    seq(SLACK, _ => 0)
  }

  function Arrives(k: u32): Step {
    Deliver(false, Packet(k), Slack())
  }

  /** A packet that the second end takes for the next one. */
  lemma Taken(w: World, k: u32)
    requires Packet(k) in w.toB && w.b.opt.srcCall == 2 && InSequence(w.b.opt, k)
    ensures Enabled(w, Arrives(k))
    ensures Next(w, Arrives(k)) ==
            w.(b := w.b.(opt := w.b.opt.(seqRecv := k), log := w.b.log + [Entry(k, FrameAt(k), true)]))
  {
    ReceivedHasOutcome(w.b.opt, Packet(k), Slack());
  }

  /** The run: all frames up to number 2^32 - 1 are sent, then number 0x100 arrives, the last one, and
      number 0x100 once more. */
  lemma BoundIsLargest() returns (ws: seq<World>, steps: seq<Step>)
    ensures IsRun(ws, steps)
    ensures var w := ws[|steps|]; |w.a.sent| == ALL_ONES && w.b.sent == [] && !OrderedDelivery(w.a, w.b)
  {
    hide Next, Enabled, Packet;
    var n: nat := ALL_ONES;
    var w0 := After(n);
    AfterSends(n);
    Taken(w0, MARK);
    var w1 := Next(w0, Arrives(MARK));
    Taken(w1, ALL_ONES);
    var w2 := Next(w1, Arrives(ALL_ONES));
    Taken(w2, MARK);
    var w3 := Next(w2, Arrives(MARK));
    ws := seq(n + 1, i requires 0 <= i <= n => After(i)) + [w1, w2, w3];
    steps := seq(n, i requires 0 <= i < n => Send(true, FrameAt(i + 1)))
             + [Arrives(MARK), Arrives(ALL_ONES), Arrives(MARK)];
    forall i | 0 <= i < |steps|
      ensures Enabled(ws[i], steps[i]) && ws[i + 1] == Next(ws[i], steps[i])
    {
      if i < n {
        SendEnabled(After(i), i + 1);
        assert ws[i] == After(i) && ws[i + 1] == After(i + 1) && steps[i] == Send(true, FrameAt(i + 1));
      }
    }
    ThreeTaken(w3.a.sent, w3.b.log);
  }

  lemma SendEnabled(w: World, k: nat)
    ensures Enabled(w, Send(true, FrameAt(k)))
    ensures k > 0 ==> After(k) == Next(After(k - 1), Send(true, FrameAt(k)))
  {
  }

  lemma ThreeTaken(sent: seq<Frame>, log: seq<Entry>)
    requires |sent| == ALL_ONES && forall i :: 0 <= i < |sent| ==> sent[i] == FrameAt(i + 1)
    requires log == [] + [Entry(MARK, FrameAt(MARK), true)] + [Entry(ALL_ONES, FrameAt(ALL_ONES), true)]
                    + [Entry(MARK, FrameAt(MARK), true)]
    ensures !exists idx :: PicksInOrder(Fresh(log), sent, idx)
  {
    var first, last := Entry(MARK, FrameAt(MARK), true), Entry(ALL_ONES, FrameAt(ALL_ONES), true);
    FreshSnoc([], first);
    FreshSnoc([first], last);
    FreshSnoc([first, last], first);
    assert [] + [first] == [first] && [first] + [last] == [first, last];
    assert Fresh(log) == [first, last, first];
    forall idx
      ensures !PicksInOrder(Fresh(log), sent, idx)
    {
    }
  }
}
