/** What sessions of the server-to-router transfer achieve, alone, resumed, and after the file came
    from another router. */
module TransferRuns {
  import opened Bytes
  import opened TransferWire
  import opened TransferIn
  import TransferOut
  import Digest
  import Md5Fold

  /** The block that a turn brings, if it brings one for this file. */
  function Brought(s: State, t: Turn): Option<seq<byte>>
    requires t.Possible()
  {
    if && s.status == Running && Heard(t.answer) == NTF_ROUTER_TRANSFER
       && Order(t.answer.message, s.usrid) == NTF_SYNC_FILE then
      BodyInMemory(t.answer.message, s.usrid);
      Block(s.fileid, Body(t.answer.message))
    else None
  }

  /** The payload of an accepted block. */
  function Accepted(s: State, t: Turn): seq<byte>
    requires t.Possible()
  {
    var b := Brought(s, t);
    if b.Some? && |b.value| <= t.room then b.value else []
  }

  function AllAccepted(s: State, turns: seq<Turn>): seq<byte>
    requires Possible(turns) && s.Writing()
  {
    if turns == [] then []
    else
      var n := |turns| - 1;
      AllAccepted(s, turns[..n]) + Accepted(Run(s, turns[..n]), turns[n])
  }

  /** The file is announced as over by a message that `cp_sync_over` finds right. */
  ghost predicate OverAccepted(s: State, t: Turn)
    requires t.Possible() && s.Writing()
  {
    && Heard(t.answer) == NTF_ROUTER_TRANSFER && Order(t.answer.message, s.usrid) == NTF_SYNC_OVER
    && (BodyInMemory(t.answer.message, s.usrid); Complete(s, Body(t.answer.message), t.digests))
  }

  /** One pass appends the accepted payload, and gives the final name exactly on an accepted end. */
  lemma StepAppends(s: State, t: Turn)
    requires t.Possible() && s.Writing()
    ensures var r := Step(s, t);
      && (r.final.Some? <==> OverAccepted(s, t) && t.renames)
      && (r.final.Some? ==> r.final == s.up && Accepted(s, t) == [] && r.up == None)
      && (r.up.Some? ==> s.up.value + Accepted(s, t) <= r.up.value)
      && (r.status == Running ==> r.up == Some(s.up.value + Accepted(s, t)))
      && r.rcv == s.rcv + |Accepted(s, t)|
      && r.(up := s.up, final := s.final, rcv := s.rcv, open := s.open, replies := s.replies, status := s.status) == s
  {
    hide Order, Body, Digest.Matches, Block, U16At, U32At;
    assert s.up.value + [] == s.up.value;
  }

  /** `content` has arrived in the session that started in `s` and is now in `r`. */
  ghost predicate Arrived(s: State, r: State, content: seq<byte>) {
    && r.rcv == |content|
    && (r.status == Running ==> r.up == Some(content) && r.final == None)
    && (r.final.Some? ==>
          && r.final == Some(content) && r.up == None && |content| == s.size
          && |s.md5| == 33 && Digest.Matches(s.md5, content))
    && (r.up.Some? ==> content <= r.up.value)
    && r.md5 == s.md5 && r.size == s.size && r.fileid == s.fileid && r.usrid == s.usrid
  }

  lemma StepArrives(s: State, r: State, content: seq<byte>, t: Turn)
    requires t.Possible() && s.Writing() && Arrived(s, r, content) && (r.status == Running ==> r.Writing())
    ensures Arrived(s, Step(r, t), content + Accepted(r, t))
  {
    hide Order, Body, Digest.Matches, Written, Finished, Block;
    assert content + [] == content;
    if r.status == Running {
      StepAppends(r, t);
      OverAcceptedMeans(r, t);
    }
  }

  /** In every session: while it runs, the `.cpup` file is its old content and the accepted payloads in
      order, and `rcv` is its length; the final name appears only for such a content, of the announced
      size and digest. */
  lemma {:induction false} RunAppends(s: State, turns: seq<Turn>)
    requires Possible(turns) && s.Writing()
    ensures Arrived(s, Run(s, turns), s.up.value + AllAccepted(s, turns))
  {
    hide Step, Accepted, Digest.Matches;
    if turns == [] {
      assert s.up.value + [] == s.up.value;
    } else {
      var n := |turns| - 1;
      RunAppends(s, turns[..n]);
      StepArrives(s, Run(s, turns[..n]), s.up.value + AllAccepted(s, turns[..n]), turns[n]);
      assert s.up.value + AllAccepted(s, turns)
          == s.up.value + AllAccepted(s, turns[..n]) + Accepted(Run(s, turns[..n]), turns[n]);
    }
  }

  lemma OverAcceptedMeans(s: State, t: Turn)
    requires t.Possible() && s.Writing()
    ensures OverAccepted(s, t) ==> s.size == s.rcv && Digest.Matches(s.md5, s.up.value)
  {
  }

  /** A server that sends the file it announced: the first block from `offset` on, and each further one from
      where the accepted ones end. */
  ghost predicate Faithful(file: seq<byte>, offset: nat, s: State, turns: seq<Turn>)
    requires Possible(turns) && s.Writing()
  {
    forall n :: 0 <= n < |turns| ==> FaithfulNext(file, offset, s, turns[..n], turns[n])
  }

  /** After these turns, the next one brings what comes next. */
  ghost predicate FaithfulNext(file: seq<byte>, offset: nat, s: State, done: seq<Turn>, t: Turn)
    requires Possible(done) && s.Writing() && t.Possible()
  {
    FaithfulTurn(file, offset + |AllAccepted(s, done)|, Run(s, done), t)
  }

  ghost predicate FaithfulTurn(file: seq<byte>, at: nat, s: State, t: Turn)
    requires t.Possible()
  {
    var b := Brought(s, t);
    b.Some? ==> at + |b.value| <= |file| && b.value == file[at..at + |b.value|]
  }

  lemma StepKeepsPrefix(file: seq<byte>, s: State, t: Turn)
    requires t.Possible() && s.Writing() && FaithfulTurn(file, s.rcv, s, t) && s.up.value <= file
    ensures var r := Step(s, t); (r.up.Some? ==> r.up.value <= file) && (r.final.Some? ==> r.final.value <= file)
  {
    hide Order, Body, Digest.Matches, Block, U16At, U32At;
    var b := Brought(s, t);
    if b.Some? {
      var all := file[..s.rcv];
      assert all + b.value == file[..s.rcv + |b.value|];
      assert t.room < |b.value| ==> all + b.value[..t.room] == file[..s.rcv + t.room];
    }
  }

  lemma SliceOfSlice<T>(s: seq<T>, n: nat, m: nat)
    requires m <= n <= |s|
    ensures s[..n][..m] == s[..m]
  {
  }

  lemma FaithfulFront(file: seq<byte>, offset: nat, s: State, turns: seq<Turn>, n: nat)
    requires Possible(turns) && s.Writing() && Faithful(file, offset, s, turns) && n < |turns|
    ensures Faithful(file, offset, s, turns[..n]) && FaithfulNext(file, offset, s, turns[..n], turns[n])
  {
    hide FaithfulNext;
    forall m | 0 <= m < n
      ensures FaithfulNext(file, offset, s, turns[..n][..m], turns[..n][m])
    {
      SliceOfSlice(turns, n, m);
    }
  }

  /** Whatever is lost, cut short or left half written, the `.cpup` file stays a prefix of the file. */
  lemma {:induction false} RunKeepsPrefix(file: seq<byte>, s: State, turns: seq<Turn>)
    requires Possible(turns) && s.Writing() && Faithful(file, s.rcv, s, turns) && s.up.value <= file
    ensures var r := Run(s, turns); (r.up.Some? ==> r.up.value <= file) && (r.final.Some? ==> r.final.value <= file)
  {
    hide Step, FaithfulTurn, Faithful, AllAccepted, Digest.Matches;
    if turns != [] {
      var front, last := turns[..|turns| - 1], turns[|turns| - 1];
      FaithfulFront(file, s.rcv, s, turns, |turns| - 1);
      RunKeepsPrefix(file, s, front);
      RunAppends(s, front);
      var before := Run(s, front);
      if before.status == Running {
        StepKeepsPrefix(file, before, last);
      } else {
        StoppedStep(before, last);
      }
    }
  }

  lemma StoppedStep(s: State, t: Turn)
    requires t.Possible() && s.status != Running
    ensures Step(s, t) == s
  {
  }

  // ---------- resuming ----------

  /** The two files between sessions. */
  datatype Disk = Disk(up: Option<seq<byte>>, final: Option<seq<byte>>)

  datatype Session = Session(
    fileid: u32, usrid: u32, size: nat, md5: seq<byte>, path: string, opens: bool, taken: bool, turns: seq<Turn>)
  {
    ghost predicate Possible() {
      |md5| == 33 && size < 0x1_0000_0000_0000_0000 && TransferIn.Possible(turns)
    }

    /** The state that the request leaves. */
    function Asked(d: Disk): State {
      State(fileid, usrid, size, md5, 0, false, d.up, d.final, [], Running)
    }

    function Begun(d: Disk): (r: State)
      requires |md5| == 33
      ensures r.status == Running ==> r.Writing()
    {
      Begin(Asked(d), path, opens, taken)
    }
  }

  function AfterSession(d: Disk, x: Session): Disk
    requires x.Possible()
  {
    var s := x.Begun(d);
    var r := if s.status == Running then Run(s, x.turns) else s;
    Disk(r.up, r.final)
  }

  function AfterSessions(d: Disk, xs: seq<Session>): Disk
    requires forall i :: 0 <= i < |xs| ==> xs[i].Possible()
  {
    if xs == [] then d else AfterSession(AfterSessions(d, xs[..|xs| - 1]), xs[|xs| - 1])
  }

  /** The length in the last reply, as the server reads it. */
  function Told(s: State): (offset: nat)
    requires s.replies != [] && |s.replies[|s.replies| - 1]| >= 18
  {
    U64At(s.replies[|s.replies| - 1], 10)
  }

  /** The reply to a request: its fields, and the length in eight bytes. */
  lemma StartAckFields(ret: u16, fileid: u32, rcv: nat)
    requires rcv < 0x1_0000_0000_0000_0000
    ensures var r := StartAck(ret, fileid, rcv);
      && |r| == 18 && U16At(r, 0) == 18 && U16At(r, 2) == 5501 && U16At(r, 4) == ret
      && U32At(r, 6) == fileid && U64At(r, 10) == rcv
  {
    var r := StartAck(ret, fileid, rcv);
    var before := Be16(18) + Be16(ACK_START) + Be16(ret) + Be32(fileid);
    assert r == before + Be64(rcv);
    Be64RoundTrip(before, rcv);
    Be32RoundTrip(fileid);
    assert r[6..10] == Be32(fileid);
    U32Slice(r, 6);
  }

  /** An accepted request is answered with success and the length of the `.cpup` file, from where the
      transfer goes on; a refused one with the reason. */
  lemma OfferTells(s: State, path: string, opens: bool)
    requires s.up.Some? ==> |s.up.value| < 0x1_0000_0000_0000_0000
    requires s.rcv < 0x1_0000_0000_0000_0000
    ensures var r := Begin(s, path, opens, true);
      && r.replies != [] && |r.replies[|r.replies| - 1]| == 18
      && var reply := r.replies[|r.replies| - 1];
         && U32At(reply, 6) == s.fileid
         && U16At(reply, 4) ==
            (if Refused(path) then 10002 else if s.final.Some? then 10004 else if !opens then 10001 else 0)
         && (r.status == Running <==> U16At(reply, 4) == 0)
         && (r.status == Running ==>
               && r.open && r.up == Some(if s.up.Some? then s.up.value else []) && Told(r) == r.rcv == |r.up.value|)
  {
    hide StartAck, U64At, U32At, U16At, Refused;
    var r := Begin(s, path, opens, true);
    var ret := if Refused(path) then INPUT else if s.final.Some? then EXIST else if !opens then FAIL else 0;
    StartAckFields(ret, s.fileid, r.rcv);
  }

  /** A path is refused exactly when it does not start with `/data/` or leads through `/../`. */
  lemma RefusedIff(path: string)
    ensures Refused(path) <==> !("/data/" <= path) || exists a, b :: path == a + "/../" + b
  {
    hide UpAt;
    forall i | 0 <= i < |path| && UpAt(path, i)
      ensures exists a, b :: path == a + "/../" + b
    {
      UpMeans(path, i);
      assert path == path[..i] + "/../" + path[i + 4..];
    }
    forall a, b | path == a + "/../" + b
      ensures |a| < |path| && UpAt(path, |a|)
    {
      assert path[|a|..] == "/../" + b;
      UpMeans(path, |a|);
    }
  }

  lemma UpMeans(path: string, i: nat)
    requires i < |path|
    ensures UpAt(path, i) <==> i + 4 <= |path| && path[i..] == "/../" + path[i + 4..]
  {
  }

  /** In each session the server announces the size of the file and sends its bytes from where the
      router told it in its reply. */
  ghost predicate AllFaithful(file: seq<byte>, d: Disk, xs: seq<Session>)
    requires forall i :: 0 <= i < |xs| ==> xs[i].Possible()
  {
    forall i :: 0 <= i < |xs| ==> FaithfulSession(file, AfterSessions(d, xs[..i]), xs[i])
  }

  ghost predicate FaithfulSession(file: seq<byte>, d: Disk, x: Session)
    requires x.Possible()
  {
    var s := x.Begun(d);
    && x.size == |file|
    && (s.status == Running ==>
          && s.replies != [] && |s.replies[|s.replies| - 1]| >= 18
          && Faithful(file, Told(s), s, x.turns))
  }

  ghost predicate OnDisk(file: seq<byte>, d: Disk) {
    (d.up.Some? ==> d.up.value <= file) && (d.final.Some? ==> d.final.value == file)
  }

  /** A transfer resumed over any number of sessions, cut off anywhere, leaves a prefix of the file under
      the `.cpup` name, and under the final name nothing or exactly the file. */
  lemma {:induction false} ResumedTransferIsTheFile(file: seq<byte>, d: Disk, xs: seq<Session>)
    requires forall i :: 0 <= i < |xs| ==> xs[i].Possible()
    requires OnDisk(file, d) && AllFaithful(file, d, xs)
    ensures OnDisk(file, AfterSessions(d, xs))
  {
    hide Run, Faithful, AllAccepted, Refused, StartAck, Digest.Matches;
    if xs != [] {
      var n := |xs| - 1;
      var front := xs[..n];
      forall m | 0 <= m < n
        ensures FaithfulSession(file, AfterSessions(d, front[..m]), front[m])
      {
        assert front[..m] == xs[..m];
      }
      ResumedTransferIsTheFile(file, d, front);
      var x, before := xs[n], AfterSessions(d, front);
      assert FaithfulSession(file, before, x);
      var s := x.Begun(before);
      if s.status == Running {
        OfferTells(x.Asked(before), x.path, x.opens);
        RunKeepsPrefix(file, s, x.turns);
        RunAppends(s, x.turns);
      }
    }
  }

  // ---------- from one router to another ----------

  /** A file sent by one router from some offset, without a failed read, and received by another that
      holds what lies before the offset, in blocks cut in any way: when both sides end well the file has
      arrived, and with a size below 2 GiB the announced digest is its own. */
  lemma {:induction false} RouterToRouter(
    job: TransferOut.Job, sent: seq<TransferOut.Turn>, s: State, received: seq<Turn>)
    requires TransferOut.Possible(sent) && forall i :: 0 <= i < |sent| ==> sent[i].readable > 0
    requires TransferOut.Run(job, sent).status == TransferOut.Done
    requires Possible(received) && s.Writing() && job.offset <= |job.content| && s.up.value == job.content[..job.offset]
    requires AllAccepted(s, received) == TransferOut.Payloads(TransferOut.Run(job, sent).sent)
    requires Run(s, received).final.Some?
    ensures Run(s, received).final == Some(job.content) && s.size == |job.content|
    ensures |job.content| < 0x8000_0000 ==> Digest.Spells(s.md5, Md5Fold.Md5(Digest.Octets(job.content)))
  {
    hide Run, TransferOut.Run, AllAccepted, TransferOut.Payloads, Digest.Matches, Digest.Spells, Md5Fold.Md5;
    TransferOut.OverMeansComplete(job, sent);
    RunAppends(s, received);
    assert job.content[..job.offset] + job.content[job.offset..] == job.content;
    if |job.content| < 0x8000_0000 {
      Digest.MatchesIff(s.md5, job.content);
    }
  }

  /** A block sent by `cp_file_send`, if it fits the receive limit, is accepted by `cp_sync_file` as it is. */
  lemma BlockReadBack(s: State, key: u32, payload: seq<byte>, slack: seq<byte>, t: Turn)
    requires |slack| >= 2 && |payload| + 26 <= BUF_MAX && s.status == Running
    requires var m := Recv(Frame(key, s.usrid, DataOrder(s.fileid, payload)), slack);
      m.Some? ==> t.answer == Got(m.value)
    ensures t.Possible() && Brought(s, t) == Some(payload)
  {
    hide Frame, DataOrder, Recv, Order, Body, U16At, U32At;
    var order := DataOrder(s.fileid, payload);
    var f := Frame(key, s.usrid, order);
    DataOrderFields(s.fileid, payload);
    assert f + [] == f;
    FrameReadBackIff(key, s.usrid, order, [], slack);
    PrefixFields(order, slack);
    assert (order + slack)[12..12 + |payload|] == order[12..];
  }

  /** The acknowledgements of `cp_sync_file` and `cp_sync_over` are those that the sender waits for: each
      is accepted exactly when it reports success for the sender's own file. */
  lemma RepliesAcceptedIff(ret: u16, fileid: u32, len: u32, mine: u32, slack: seq<byte>)
    ensures TransferOut.Accepts(FileAck(ret, fileid, len) + slack, 14, mine) <==> ret == 0 && fileid == mine
    ensures TransferOut.Accepts(OverAck(ret, fileid) + slack, 10, mine) <==> ret == 0 && fileid == mine
  {
    hide FileAck, OverAck, U16At, U32At;
    AckFields(ret, fileid, len);
    PrefixFields(FileAck(ret, fileid, len), slack);
    PrefixFields(OverAck(ret, fileid), slack);
  }

  // ---------- what a right order does ----------

  /** A data order that the router can receive appends its payload, when it is for the file of the session and
      the disk has room, and is acknowledged with success and its length. Otherwise the session ends, as much
      is written as there is room for or, for another file, nothing, and the failure is told. */
  lemma DataArrives(s: State, key: u32, fileid: u32, payload: seq<byte>, slack: seq<byte>, t: Turn)
    requires |slack| >= 2 && |payload| + 26 <= 61440 && s.Writing() && t.taken
    requires t.answer == Got(Message(Frame(key, s.usrid, DataOrder(fileid, payload)) + slack, |payload| + 26))
    ensures t.Possible()
    ensures var r, mine, fits := Step(s, t), fileid == s.fileid, |payload| <= t.room;
      && r.up == Some(s.up.value + if !mine then [] else if fits then payload else payload[..t.room])
      && r.rcv == s.rcv + (if mine && fits then |payload| else 0) && r.final == None
      && (if mine && fits then r.status == Running else r.status == Exited)
      && r.replies == s.replies
                      + [FileAck(if mine && fits then 0 else 10001, s.fileid, if mine then |payload| else 0)]
  {
    hide DataOrder, Order, Body, U16At, U32At, FileAck, Digest.Matches;
    var order := DataOrder(fileid, payload);
    var f := Frame(key, s.usrid, order);
    DataOrderFields(fileid, payload);
    assert f + [] == f;
    FrameReadBackIff(key, s.usrid, order, [], slack);
    PrefixFields(order, slack);
    assert (order + slack)[12..12 + |payload|] == order[12..];
  }

  /** An order that the file is over gives it its final name exactly when it is for the file of the session and
      the size and digest are the announced ones. The `.cpup` file is gone in any case. */
  lemma EndArrives(s: State, key: u32, fileid: u32, slack: seq<byte>, t: Turn)
    requires |slack| >= 2 && s.Writing() && t.taken
    requires t.answer == Got(Message(Frame(key, s.usrid, OverOrder(fileid)) + slack, 22))
    ensures t.Possible()
    ensures
      var r := Step(s, t);
      var right := fileid == s.fileid && s.size == |s.up.value| && t.digests && Digest.Matches(s.md5, s.up.value);
      && r.up == None && !r.open && r.final == (if right && t.renames then s.up else None)
      && (if right then r.status == Done else r.status == Exited)
      && r.replies == s.replies + [OverAck(if right then 0 else 10001, s.fileid)]
  {
    hide OverOrder, Order, Body, U16At, U32At, OverAck, Digest.Matches;
    var order := OverOrder(fileid);
    var f := Frame(key, s.usrid, order);
    OverOrderFields(fileid);
    assert f + [] == f;
    FrameReadBackIff(key, s.usrid, order, [], slack);
    PrefixFields(order, slack);
  }
}
