/** The router-to-server transfer: blocks of a file from a requested offset on, each acknowledged
    before the next, then a message that says the file is over. */
module TransferOut {
  import opened Bytes
  import opened TransferWire

  /** What the session does not change: the announced size is the length of the open file. */
  datatype Job = Job(fileid: u32, usrid: u32, content: seq<byte>, offset: nat)

  /** One pass of the loop as the environment sees it: how many bytes the file gives before a read
      fails, whether the socket takes what is sent, and what is heard afterwards. */
  datatype Turn = Turn(readable: nat, taken: bool, answer: Answer)
  {
    ghost predicate Possible() {
      answer.Got? ==> answer.message.Received()
    }
  }

  datatype Status = Running | Exited | Done

  /** `rcv` counts the bytes the server has; `pos` is the read position; `sent` the orders sent. */
  datatype State = State(rcv: nat, pos: nat, sent: seq<seq<byte>>, acked: nat, wait: u16, send: bool, status: Status)

  function Start(job: Job): State {
    State(job.offset, job.offset, [], 0, EXIT, true, Running)
  }

  function Min(a: nat, b: nat): nat {
    if a < b then a else b
  }

  /** The bytes one call of `cc_read` returns. */
  function Block(content: seq<byte>, pos: nat, readable: nat): (r: seq<byte>)
    ensures |r| <= SEND_MX
    ensures pos <= |content| ==> pos + |r| <= |content| && r == content[pos..pos + |r|]
  {
    if pos >= |content| then [] else content[pos..pos + Min(Min(SEND_MX, readable), |content| - pos)]
  }

  /** `cp_file_send`. */
  function Sending(job: Job, s: State, readable: nat, taken: bool): State {
    if s.rcv > |job.content| then s.(wait := EXIT, status := Exited)
    else
      var b := Block(job.content, s.pos, readable);
      var read := s.(pos := s.pos + |b|);
      if !taken then read.(wait := EXIT, status := Exited)
      else if b != [] then
        read.(sent := s.sent + [DataOrder(job.fileid, b)], rcv := s.rcv + |b|, wait := ACK_SYNC_FILE)
      else read.(sent := s.sent + [OverOrder(job.fileid)], wait := ACK_SYNC_OVER)
  }

  /** `cp_send_ack` with 14 and `cp_send_over_ack` with 10 for `least`. */
  predicate Accepts(body: seq<byte>, least: nat, fileid: u32)
    requires 10 <= least && |body| >= 2 && U16At(body, 0) <= |body|
  {
    U16At(body, 0) >= least && U16At(body, 4) == 0 && U32At(body, 6) == fileid
  }

  /** The part of the loop of `cp_file_r2s` after the send. */
  function Hear(job: Job, s: State, a: Answer): State
    requires a.Got? ==> a.message.Received()
  {
    if Heard(a) == NTF_ROUTER_TRANSFER then
      var order := Order(a.message, job.usrid);
      if order != s.wait || order == EXIT then s.(status := Exited)
      else
        BodyInMemory(a.message, job.usrid);
        var body := Body(a.message);
        if order == ACK_SYNC_FILE && Accepts(body, 14, job.fileid) then
          s.(send := true, acked := s.acked + 1)
        else if order == ACK_SYNC_OVER && Accepts(body, 10, job.fileid) then
          s.(send := true, acked := s.acked + 1, status := Done)
        else s.(status := Exited)
    else if Heard(a) == ACK_ROUTER_TRANSFER then s.(send := false)
    else s.(status := Exited)
  }

  function Step(job: Job, s: State, t: Turn): State
    requires t.Possible()
  {
    if s.status != Running then s
    else
      var a := if s.send then Sending(job, s, t.readable, t.taken) else s.(send := true);
      if a.status != Running then a else Hear(job, a, t.answer)
  }

  ghost predicate Possible(turns: seq<Turn>) {
    forall i :: 0 <= i < |turns| ==> turns[i].Possible()
  }

  function Run(job: Job, turns: seq<Turn>): State
    requires Possible(turns)
  {
    if turns == [] then Start(job)
    else
      var n := |turns| - 1;
      Step(job, Run(job, turns[..n]), turns[n])
  }

  // ---------- the session ----------

  class Sender {
    const job: Job
    var rcv: nat
    var pos: nat
    var sent: seq<seq<byte>>
    ghost var acked: nat

    ghost function View(wait: u16, send: bool, status: Status): State
      reads this
    {
      State(rcv, pos, sent, acked, wait, send, status)
    }

    constructor (j: Job)
      ensures job == j && View(EXIT, true, Running) == Start(job)
    {
      job := j;
      rcv, pos, sent, acked := j.offset, j.offset, [], 0;
    }

    /** `cp_file_send`: the order to wait for, or `EXIT`. */
    method FileSend(readable: nat, taken: bool, ghost was: u16) returns (wait: u16)
      modifies this`rcv, this`pos, this`sent
      ensures View(wait, true, if wait == EXIT then Exited else Running)
           == Sending(job, old(View(was, true, Running)), readable, taken)
    {
      if rcv > |job.content| {
        return EXIT;
      }
      var buf := Block(job.content, pos, readable);
      pos := pos + |buf|;
      if !taken {
        return EXIT;
      }
      if buf != [] {
        sent := sent + [DataOrder(job.fileid, buf)];
        rcv := rcv + |buf|;
        return ACK_SYNC_FILE;
      }
      sent := sent + [OverOrder(job.fileid)];
      return ACK_SYNC_OVER;
    }

    /** What the loop of `cp_file_r2s` does with what it hears. */
    method Listen(a: Answer, wait: u16) returns (status: Status, send: bool)
      requires a.Got? ==> a.message.Received()
      modifies this`acked
      ensures View(wait, send, status) == Hear(job, old(View(wait, true, Running)), a)
    {
      send := true;
      var heard := Heard(a);
      if heard == NTF_ROUTER_TRANSFER {
        var order := Order(a.message, job.usrid);
        if order != wait || order == EXIT {
          return Exited, send;
        }
        BodyInMemory(a.message, job.usrid);
        var body := Body(a.message);
        if order == ACK_SYNC_FILE {
          if !Accepts(body, 14, job.fileid) {
            return Exited, send;
          }
          acked := acked + 1;
        } else if order == ACK_SYNC_OVER {
          if !Accepts(body, 10, job.fileid) {
            return Exited, send;
          }
          acked := acked + 1;
          return Done, send;
        } else {
          return Exited, send;
        }
      } else if heard == ACK_ROUTER_TRANSFER {
        send := false;
      } else {
        return Exited, send;
      }
      status := Running;
    }

    /** `cp_file_r2s`, for as long as the environment lasts. */
    method FileR2S(turns: seq<Turn>) returns (status: Status, ghost wait: u16, ghost send: bool)
      requires Possible(turns) && View(EXIT, true, Running) == Start(job)
      modifies this
      ensures View(wait, send, status) == Run(job, turns)
    {
      hide Sending, Hear;
      var waitOrder, sending := EXIT, true;
      for i := 0 to |turns|
        invariant View(waitOrder, sending, Running) == Run(job, turns[..i])
      {
        var t := turns[i];
        assert turns[..i + 1][..i] == turns[..i];
        if sending {
          waitOrder := FileSend(t.readable, t.taken, waitOrder);
          if waitOrder == EXIT {
            Stopped(job, turns, i + 1);
            return Exited, waitOrder, true;
          }
        }
        status, sending := Listen(t.answer, waitOrder);
        if status != Running {
          Stopped(job, turns, i + 1);
          return status, waitOrder, sending;
        }
      }
      assert turns[..|turns|] == turns;
      return Running, waitOrder, sending;
    }
  }

  /** A session that has ended stays as it is. */
  lemma {:induction false} Stopped(job: Job, turns: seq<Turn>, n: nat)
    requires Possible(turns) && n <= |turns| && Run(job, turns[..n]).status != Running
    ensures Run(job, turns) == Run(job, turns[..n])
    decreases |turns| - n
  {
    if n < |turns| {
      assert turns[..n + 1][..n] == turns[..n];
      Stopped(job, turns, n + 1);
    } else {
      assert turns[..n] == turns;
    }
  }

  // ---------- what every session keeps ----------

  function Payload(order: seq<byte>): seq<byte> {
    if |order| >= 12 && U16At(order, 2) == NTF_SYNC_FILE then order[12..] else []
  }

  function Payloads(sent: seq<seq<byte>>): seq<byte> {
    if sent == [] then [] else Payloads(sent[..|sent| - 1]) + Payload(sent[|sent| - 1])
  }

  ghost predicate IsData(order: seq<byte>) {
    |order| > 12 && U16At(order, 2) == NTF_SYNC_FILE
  }

  ghost predicate IsOver(order: seq<byte>) {
    |order| >= 4 && U16At(order, 2) == NTF_SYNC_OVER
  }

  /** The orders sent carry the file from the offset to `rcv`; only the last can say the file is over;
      while the session waits just one of them is not acknowledged, and otherwise none. */
  ghost predicate Inv(job: Job, s: State) {
    && s.pos >= s.rcv >= job.offset
    && (s.status != Exited ==> s.pos == s.rcv)
    && s.rcv == job.offset + |Payloads(s.sent)|
    && (s.sent != [] ==> s.rcv <= |job.content| && Payloads(s.sent) == job.content[job.offset..s.rcv])
    && (forall i :: 0 <= i < |s.sent| - 1 ==> IsData(s.sent[i]))
    && (s.sent != [] ==> IsData(s.sent[|s.sent| - 1]) || IsOver(s.sent[|s.sent| - 1]))
    && s.acked <= |s.sent| <= s.acked + 1
    && (s.status == Running ==> (s.send <==> s.acked == |s.sent|))
    && (s.status == Done ==> s.acked == |s.sent| > 0 && IsOver(s.sent[|s.sent| - 1]))
    && (s.status == Running && !s.send ==> Awaited(s.sent, s.wait))
    && (s.status == Running && s.send && s.sent != [] ==> IsData(s.sent[|s.sent| - 1]))
  }

  /** The order waited for answers the last one sent. */
  ghost predicate Awaited(sent: seq<seq<byte>>, wait: u16) {
    && sent != []
    && if wait == ACK_SYNC_FILE then IsData(sent[|sent| - 1])
       else wait == ACK_SYNC_OVER && IsOver(sent[|sent| - 1])
  }

  lemma PayloadsAppend(sent: seq<seq<byte>>, order: seq<byte>)
    ensures Payloads(sent + [order]) == Payloads(sent) + Payload(order)
  {
    assert (sent + [order])[..|sent|] == sent;
  }

  lemma OneMoreSent(job: Job, s: State, order: seq<byte>, b: seq<byte>, wait: u16)
    requires Inv(job, s) && s.status == Running && s.send && s.rcv + |b| <= |job.content|
    requires b == job.content[s.rcv..s.rcv + |b|] && b == Payload(order)
    requires Awaited([order], wait)
    ensures Inv(job, s.(pos := s.pos + |b|, rcv := s.rcv + |b|, sent := s.sent + [order], wait := wait, send := false))
  {
    hide Payload, IsData, IsOver;
    PayloadsAppend(s.sent, order);
    assert job.content[job.offset..s.rcv] + b == job.content[job.offset..s.rcv + |b|];
    if s.sent == [] {
      assert Payloads(s.sent) == [] == job.content[job.offset..s.rcv];
    }
  }

  lemma SendKeepsInv(job: Job, s: State, readable: nat, taken: bool)
    requires Inv(job, s) && s.status == Running && s.send
    ensures var r := Sending(job, s, readable, taken);
      && Inv(job, r.(send := false)) && (r.status == Running || r.status == Exited)
      && (r.status == Running ==> |r.sent| == r.acked + 1)
  {
    hide DataOrder, OverOrder, Payloads, Payload, IsData;
    if s.rcv <= |job.content| && taken {
      var b := Block(job.content, s.pos, readable);
      if b != [] {
        DataOrderFieldsShort(job.fileid, b);
        OneMoreSent(job, s, DataOrder(job.fileid, b), b, ACK_SYNC_FILE);
      } else {
        OverOrderFields(job.fileid);
        OverHasNoPayload(job.fileid);
        OneMoreSent(job, s, OverOrder(job.fileid), b, ACK_SYNC_OVER);
      }
    }
  }

  lemma OverHasNoPayload(fileid: u32)
    ensures Payload(OverOrder(fileid)) == []
  {
  }

  lemma DataOrderFieldsShort(fileid: u32, b: seq<byte>)
    requires |b| <= SEND_MX
    ensures U16At(DataOrder(fileid, b), 2) == NTF_SYNC_FILE && Payload(DataOrder(fileid, b)) == b
    ensures b != [] ==> IsData(DataOrder(fileid, b))
  {
    DataOrderFields(fileid, b);
  }

  lemma HearKeepsInv(job: Job, s: State, a: Answer)
    requires a.Got? ==> a.message.Received()
    requires Inv(job, s.(send := false)) && s.status == Running && |s.sent| == s.acked + 1
    ensures Inv(job, Hear(job, s, a))
  {
  }

  lemma StepKeepsInv(job: Job, s: State, t: Turn)
    requires t.Possible() && Inv(job, s)
    ensures Inv(job, Step(job, s, t))
  {
    hide Sending, Hear, Payloads, IsData, IsOver;
    if s.status == Running {
      var a := if s.send then Sending(job, s, t.readable, t.taken) else s.(send := true);
      if s.send {
        SendKeepsInv(job, s, t.readable, t.taken);
      }
      assert Inv(job, a.(send := false));
      if a.status == Running {
        HearKeepsInv(job, a, t.answer);
      }
    }
  }

  /** What every session keeps, whatever the server answers and whenever a read or a send fails. */
  lemma {:induction false} RunKeepsInv(job: Job, turns: seq<Turn>)
    requires Possible(turns)
    ensures Inv(job, Run(job, turns))
  {
    if turns != [] {
      var n := |turns| - 1;
      RunKeepsInv(job, turns[..n]);
      StepKeepsInv(job, Run(job, turns[..n]), turns[n]);
    }
  }

  // ---------- when the file is said to be over ----------

  /** The end of the file is announced at its end, and wherever a read fails with nothing read: a failed
      read is not told from the end of the file. */
  lemma OverSentIff(job: Job, s: State, readable: nat)
    requires Inv(job, s) && s.status == Running && s.send && s.rcv <= |job.content|
    ensures Sending(job, s, readable, true).wait == ACK_SYNC_OVER <==> s.rcv == |job.content| || readable == 0
  {
    hide Payloads, DataOrder;
  }

  ghost predicate OverIsLast(job: Job, s: State) {
    s.sent != [] && IsOver(s.sent[|s.sent| - 1]) ==> s.rcv == |job.content|
  }

  lemma SendOver(job: Job, s: State, readable: nat, taken: bool)
    requires Inv(job, s) && s.status == Running && s.send && readable > 0 && OverIsLast(job, s)
    ensures OverIsLast(job, Sending(job, s, readable, taken))
  {
    hide DataOrder;
    var b := Block(job.content, s.pos, readable);
    DataOrderFieldsShort(job.fileid, b);
  }

  /** When no read fails, `NTF_SYNC_OVER` is sent only after all of the file from the offset on; so a
      session that ends well has carried, and had acknowledged, exactly that suffix. */
  lemma {:induction false} OverMeansComplete(job: Job, turns: seq<Turn>)
    requires Possible(turns) && forall i :: 0 <= i < |turns| ==> turns[i].readable > 0
    ensures var s := Run(job, turns);
      && OverIsLast(job, s)
      && (s.sent != [] && IsOver(s.sent[|s.sent| - 1]) ==>
            job.offset <= |job.content| && Payloads(s.sent) == job.content[job.offset..])
      && (s.status == Done ==>
            s.acked == |s.sent| && job.offset <= |job.content| && Payloads(s.sent) == job.content[job.offset..])
  {
    hide Sending, Hear, Payloads;
    if turns != [] {
      var n := |turns| - 1;
      var s := Run(job, turns[..n]);
      RunKeepsInv(job, turns[..n]);
      OverMeansComplete(job, turns[..n]);
      if s.status == Running && s.send {
        SendOver(job, s, turns[n].readable, turns[n].taken);
      }
      StepSent(job, s, turns[n]);
    }
    RunKeepsInv(job, turns);
  }

  lemma StepSent(job: Job, s: State, t: Turn)
    requires t.Possible()
    ensures var r := Step(job, s, t);
      var a := if s.status == Running && s.send then Sending(job, s, t.readable, t.taken) else s;
      r.sent == a.sent && r.rcv == a.rcv
  {
    hide Sending;
  }

  // ---------- how many blocks ----------

  lemma {:induction false} DataIsNotEmpty(sent: seq<seq<byte>>)
    requires forall i :: 0 <= i < |sent| ==> IsData(sent[i])
    ensures |sent| <= |Payloads(sent)|
  {
    if sent != [] {
      DataIsNotEmpty(sent[..|sent| - 1]);
    }
  }

  /** However the server behaves, no session sends more orders than one for each byte and one more. */
  lemma SendsBounded(job: Job, turns: seq<Turn>)
    requires Possible(turns)
    ensures |Run(job, turns).sent| <= (if job.offset <= |job.content| then |job.content| - job.offset + 1 else 0)
  {
    hide Run;
    RunKeepsInv(job, turns);
    var s := Run(job, turns);
    if s.sent != [] {
      DataIsNotEmpty(s.sent[..|s.sent| - 1]);
    }
  }

  /** Blocks of 60 KiB, the last one shorter. */
  function BlocksOf(rest: nat): nat {
    (rest + 61439) / 61440
  }

  /** After `n` full reads. */
  function After(job: Job, n: nat): nat {
    Min(job.offset + n * 61440, |job.content|)
  }

  /** The answer a server owes to the order last sent. */
  ghost predicate Owed(job: Job, a: Answer, order: u16) {
    && a.Got? && a.message.Received() && Heard(a) == NTF_ROUTER_TRANSFER
    && order != EXIT && Order(a.message, job.usrid) == order
    && (BodyInMemory(a.message, job.usrid);
        Accepts(Body(a.message), if order == ACK_SYNC_FILE then 14 else 10, job.fileid))
  }

  /** A server that always answers, a socket that takes everything, a file that can be read. */
  ghost predicate Responsive(job: Job, turns: seq<Turn>)
    requires job.offset <= |job.content|
  {
    forall i :: 0 <= i < |turns| ==>
      turns[i].taken && turns[i].readable >= SEND_MX
      && Owed(job, turns[i].answer, if i < BlocksOf(|job.content| - job.offset) then ACK_SYNC_FILE else ACK_SYNC_OVER)
  }

  /** With such a server the session sends `BlocksOf` blocks and the final order, and ends well after
      just as many rounds. */
  lemma {:induction false} ResponsiveServerCompletes(job: Job, turns: seq<Turn>)
    requires job.offset <= |job.content|
    requires |turns| <= BlocksOf(|job.content| - job.offset) + 1
    requires Responsive(job, turns)
    ensures var s := Run(job, turns);
      && |s.sent| == s.acked == |turns|
      && s.rcv == After(job, |turns|)
      && (s.status == Running <==> |turns| <= BlocksOf(|job.content| - job.offset))
      && (s.status == Running ==> s.send)
      && (s.status == Done <==> |turns| == BlocksOf(|job.content| - job.offset) + 1)
  {
    hide DataOrder, OverOrder, Payloads, Order, Accepts, Body;
    if turns != [] {
      var n := |turns| - 1;
      ResponsiveServerCompletes(job, turns[..n]);
      RunKeepsInv(job, turns[..n]);
      var s := Run(job, turns[..n]);
      var t := turns[n];
      BlockSize(job, n);
      var b := Block(job.content, s.pos, t.readable);
      assert |b| == After(job, n + 1) - After(job, n);
      assert Owed(job, t.answer, if n < BlocksOf(|job.content| - job.offset) then ACK_SYNC_FILE else ACK_SYNC_OVER);
    }
  }

  lemma BlockSize(job: Job, n: nat)
    requires job.offset <= |job.content|
    ensures After(job, n + 1) - After(job, n) == Min(SEND_MX, |job.content| - After(job, n))
    ensures n < BlocksOf(|job.content| - job.offset) <==> After(job, n) < |job.content|
  {
  }

  // ---------- what is heard ----------

  /** An acknowledgement that the other end sends is the one owed, exactly when it reports success for the file
      of the session. */
  lemma AckIsOwedIff(job: Job, key: u32, ret: u16, fileid: u32, len: u32, slack: seq<byte>)
    requires |slack| >= 2
    ensures var f, o := FileAck(ret, fileid, len), OverAck(ret, fileid);
      var right := ret == 0 && fileid == job.fileid;
      && (Owed(job, Got(Message(Frame(key, job.usrid, f) + slack, 28)), 5505) <==> right)
      && (Owed(job, Got(Message(Frame(key, job.usrid, o) + slack, 24)), 5507) <==> right)
  {
    hide FileAck, OverAck, Frame, Order, Body, U16At, U32At;
    AckFields(ret, fileid, len);
    forall order | order in [FileAck(ret, fileid, len), OverAck(ret, fileid)]
      ensures var m := Message(Frame(key, job.usrid, order) + slack, |order| + 14);
        m.Received() && Order(m, job.usrid) == U16At(order, 2) && Body(m) == order + slack && U16At(m.data, 2) == 5305
    {
      var f := Frame(key, job.usrid, order);
      assert f + [] == f;
      FrameReadBackIff(key, job.usrid, order, [], slack);
      PrefixFields(order, slack);
    }
    PrefixFields(FileAck(ret, fileid, len), slack);
    PrefixFields(OverAck(ret, fileid), slack);
  }

  /** An acknowledgement that is too short is refused. */
  lemma ShortAckRefused(body: seq<byte>, fileid: u32)
    requires |body| >= 2 && U16At(body, 0) <= |body|
    ensures U16At(body, 0) < 14 ==> !Accepts(body, 14, fileid)
    ensures U16At(body, 0) < 10 ==> !Accepts(body, 10, fileid)
  {
  }

  /** A frame 5306 is passed over: nothing is sent or counted, and the session goes on waiting for the same
      answer. */
  lemma TransferAckWaits(job: Job, s: State, t: Turn, next: Turn)
    requires s.status == Running && !s.send && t.answer.Got? && t.Possible() && next.Possible()
    requires U16At(t.answer.message.data, 2) == 5306
    ensures Step(job, s, t) == s
    ensures Step(job, Step(job, s, t), next) == Step(job, s, next)
  {
  }

  /** After the frame 5306 nothing is sent again. */
  lemma NoSecondSend(job: Job, s: State, t: Turn)
    requires s.status == Running && t.answer.Got? && t.Possible() && U16At(t.answer.message.data, 2) == 5306
    ensures var r := Step(job, s, t);
      r.status == Running ==>
        !r.send && r.sent == (if s.send then Sending(job, s, t.readable, t.taken).sent else s.sent)
  {
    hide Sending;
  }
}
