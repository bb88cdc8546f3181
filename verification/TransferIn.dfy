/** The server-to-router transfer: blocks appended to a `.cpup` file that gets its final name once its
    size and digest are the announced ones. */
module TransferIn {
  import opened Bytes
  import opened TransferWire
  import Digest

  const INPUT: u16 := 10002
  const EXIST: u16 := 10004
  const ACK_START: u16 := 5501
  const MODULUS := 0x1_0000_0000

  datatype Status = Running | Exited | Done

  /** The announced file, the two files on disk, and the replies sent. */
  datatype State = State(
    fileid: u32, usrid: u32, size: nat, md5: seq<byte>,
    rcv: nat, open: bool, up: Option<seq<byte>>, final: Option<seq<byte>>,
    replies: seq<seq<byte>>, status: Status)
  {
    ghost predicate Writing() {
      open && up.Some? && final.None? && rcv == |up.value| && status == Running && |md5| == 33
    }
  }

  /** One pass of the loop as the environment sees it: what is heard, how many bytes the disk still
      takes, whether the file can be digested and renamed, and whether the socket takes the reply. */
  datatype Turn = Turn(answer: Answer, room: nat, digests: bool, renames: bool, taken: bool)
  {
    ghost predicate Possible() {
      answer.Got? ==> answer.message.Received()
    }
  }

  /** `cp_file_check` on a C string. */
  predicate Refused(path: string) {
    !("/data/" <= path) || exists i :: 0 <= i < |path| && UpAt(path, i)
  }

  predicate UpAt(path: string, i: nat)
    requires i < |path|
  {
    "/../" <= path[i..]
  }

  function StartAck(ret: u16, fileid: u32, rcv: nat): seq<byte> {
    Be16(18) + Be16(ACK_START) + Be16(ret) + Be32(fileid) + Be32(rcv / MODULUS % MODULUS) + Be32(rcv % MODULUS)
  }

  /** `cp_file_s2r_ack` for a path; `opens` tells whether the `.cpup` file can be opened or created, and
      `taken` whether the socket takes the reply. */
  function Begin(s: State, path: string, opens: bool, taken: bool): State
  {
    var ret := if Refused(path) then INPUT else if s.final.Some? then EXIST else if !opens then FAIL else 0;
    var up := match s.up case Some(c) => c case None => [];
    var rcv := if ret == 0 then |up| else s.rcv;
    s.(up := if ret == 0 then Some(up) else s.up, rcv := rcv, open := ret == 0,
       replies := if taken then s.replies + [StartAck(ret, s.fileid, rcv)] else s.replies,
       status := if ret == 0 && taken then Running else Exited)
  }

  /** The block in an order: `None` unless its length field fits the order and it is for this file. The
      sum is computed in 32 bits; a length close to 2^32 passes and then nothing is written for it. */
  function Block(fileid: u32, body: seq<byte>): (r: Option<seq<byte>>)
    requires |body| >= 2 && U16At(body, 0) <= |body|
  {
    var orderLen := U16At(body, 0);
    if orderLen < 12 || U32At(body, 4) != fileid then None
    else
      var len := U32At(body, 8);
      if (len + 12) % MODULUS > orderLen || len + 12 >= MODULUS then None
      else Some(body[12..12 + len])
  }

  /** The length field that the acknowledgement repeats. */
  function LenField(fileid: u32, body: seq<byte>): u32
    requires |body| >= 2 && U16At(body, 0) <= |body|
  {
    if U16At(body, 0) < 12 || U32At(body, 4) != fileid then 0 else U32At(body, 8)
  }

  /** `cp_sync_file`. */
  function Written(s: State, body: seq<byte>, room: nat, taken: bool): (r: State)
    requires s.Writing() && |body| >= 2 && U16At(body, 0) <= |body|
  {
    var b := Block(s.fileid, body);
    var ok := b.Some? && |b.value| <= room;
    var written := if b.None? then [] else if ok then b.value else b.value[..room];
    var ret := if ok then 0 else FAIL;
    s.(up := Some(s.up.value + written), rcv := if ok then s.rcv + |b.value| else s.rcv,
       replies := if taken then s.replies + [FileAck(ret, s.fileid, LenField(s.fileid, body))] else s.replies,
       status := if ok && taken then Running else Exited)
  }

  /** Whether `cp_sync_over` finds the file complete. */
  predicate Complete(s: State, body: seq<byte>, digests: bool)
    requires s.Writing() && |body| >= 2 && U16At(body, 0) <= |body|
  {
    && U16At(body, 0) >= 8 && U32At(body, 4) == s.fileid
    && s.size == s.rcv && digests && Digest.Matches(s.md5, s.up.value)
  }

  /** `cp_sync_over`. */
  function Finished(s: State, body: seq<byte>, digests: bool, renames: bool, taken: bool): State
    requires s.Writing() && |body| >= 2 && U16At(body, 0) <= |body|
  {
    var ok := Complete(s, body, digests);
    var ret := if ok then 0 else FAIL;
    s.(open := false, up := None, final := if ok && renames then s.up else s.final,
       replies := if taken then s.replies + [OverAck(ret, s.fileid)] else s.replies,
       status := if ok && taken then Done else Exited)
  }

  /** One pass of the loop of `cp_file_s2r`; an unknown frame is passed over. */
  function Step(s: State, t: Turn): State
    requires t.Possible() && (s.status == Running ==> s.Writing())
  {
    if s.status != Running then s
    else if Heard(t.answer) == EXIT then s.(status := Exited)
    else if Heard(t.answer) != NTF_ROUTER_TRANSFER then s
    else Transferred(s, t)
  }

  function Transferred(s: State, t: Turn): State
    requires s.Writing() && t.answer.Got? && t.Possible()
  {
    var m := t.answer.message;
    var order := Order(m, s.usrid);
    if order == NTF_SYNC_FILE then BodyInMemory(m, s.usrid); Written(s, Body(m), t.room, t.taken)
    else if order == NTF_SYNC_OVER then BodyInMemory(m, s.usrid); Finished(s, Body(m), t.digests, t.renames, t.taken)
    else s.(status := Exited)
  }

  ghost predicate Possible(turns: seq<Turn>) {
    forall i :: 0 <= i < |turns| ==> turns[i].Possible()
  }

  /** The session from `s` on. */
  function Run(s: State, turns: seq<Turn>): (r: State)
    requires Possible(turns) && s.Writing()
    ensures r.status == Running ==> r.Writing()
  {
    if turns == [] then s
    else
      var n := |turns| - 1;
      Step(Run(s, turns[..n]), turns[n])
  }

  // ---------- the session ----------

  class Receiver {
    const fileid: u32
    const usrid: u32
    const size: nat
    const md5: seq<byte>
    var rcv: nat
    var open: bool
    var up: Option<seq<byte>>
    var final: Option<seq<byte>>
    var replies: seq<seq<byte>>

    ghost function View(status: Status): State
      reads this
    {
      State(fileid, usrid, size, md5, rcv, open, up, final, replies, status)
    }

    /** The state that `cp_file_s2r_req` leaves, on a disk with these two files. */
    constructor (fileid: u32, usrid: u32, size: nat, md5: seq<byte>, up: Option<seq<byte>>, final: Option<seq<byte>>)
      ensures View(Running) == State(fileid, usrid, size, md5, 0, false, up, final, [], Running)
    {
      this.fileid, this.usrid, this.size, this.md5 := fileid, usrid, size, md5;
      this.rcv, this.open, this.up, this.final, this.replies := 0, false, up, final, [];
    }

    /** `cp_file_s2r_ack`: true when the session goes on. */
    method Offer(path: string, opens: bool, taken: bool) returns (goesOn: bool)
      modifies this
      ensures View(if goesOn then Running else Exited) == Begin(old(View(Running)), path, opens, taken)
    {
      var ret: u16 := 0;
      if Refused(path) {
        ret := INPUT;
      } else if final.Some? {
        ret := EXIST;
      } else if !opens {
        ret := FAIL;
      } else {
        if up.None? {
          up := Some([]);
        }
        rcv := |up.value|;
      }
      open := ret == 0;
      if taken {
        replies := replies + [StartAck(ret, fileid, rcv)];
      }
      goesOn := taken && ret == 0;
    }

    /** `cp_sync_file`: true when the session goes on. */
    method SyncFile(body: seq<byte>, room: nat, taken: bool) returns (goesOn: bool)
      requires View(Running).Writing() && |body| >= 2 && U16At(body, 0) <= |body|
      modifies this
      ensures View(if goesOn then Running else Exited) == Written(old(View(Running)), body, room, taken)
    {
      var orderLen := U16At(body, 0) as int;
      var len: u32 := 0;
      var ret := FAIL;
      assert up.value + [] == up.value;
      if orderLen >= 12 && U32At(body, 4) == fileid {
        len := U32At(body, 8);
        if (len + 12) % MODULUS <= orderLen {
          ghost var data := body[12..];
          assert len < 0x8000_0000 ==> body[12..12 + len] == data[..len];
          assert len < 0x8000_0000 && room < len ==> data[..len][..room] == data[..room];
          assert len >= 0x8000_0000 ==> Block(fileid, body) == None;
          var wrote := Write(if len < 0x8000_0000 then len else len - MODULUS, body[12..], room);
          if wrote == len {
            rcv := rcv + len;
            ret := 0;
          }
        }
      }
      if taken {
        replies := replies + [FileAck(ret, fileid, len)];
      }
      goesOn := taken && ret == 0;
    }

    /** `igd_safe_write` at the end of the `.cpup` file; the length is a signed number. */
    method Write(len: int, data: seq<byte>, room: nat) returns (wrote: int)
      requires up.Some? && len <= |data|
      modifies this`up
      ensures up == Some(old(up.value) + if len <= 0 then [] else if len <= room then data[..len] else data[..room])
      ensures wrote == if len <= 0 then 0 else if len <= room then len else -1
    {
      var count := 0;
      assert up.value + [] == up.value && data[..0] == [];
      while count < len
        invariant 0 <= count && (len > 0 ==> count <= len) && (len <= 0 ==> count == 0) && count <= room
        invariant up == Some(old(up.value) + data[..count])
      {
        var ret := Disk(len - count, room - count);
        if ret < 0 {
          return -1;
        }
        up := Some(up.value + data[count..count + ret]);
        assert old(up.value) + data[..count] + data[count..count + ret]
            == old(up.value) + (data[..count] + data[count..count + ret]);
        assert data[..count] + data[count..count + ret] == data[..count + ret];
        count := count + ret;
      }
      wrote := count;
    }

    /** `cp_sync_over`: true when the file has arrived. */
    method SyncOver(body: seq<byte>, digests: bool, renames: bool, taken: bool) returns (done: bool)
      requires View(Running).Writing() && |body| >= 2 && U16At(body, 0) <= |body|
      modifies this
      ensures View(if done then Done else Exited) == Finished(old(View(Running)), body, digests, renames, taken)
    {
      hide Digest.Matches;
      var ret := FAIL;
      if U16At(body, 0) >= 8 && U32At(body, 4) == fileid && size == rcv && digests {
        var same := Digest.MatchesFile(md5, up.value);
        if same {
          if renames {
            final, up := up, None;
          }
          ret := 0;
        }
      }
      open, up := false, None;
      if taken {
        replies := replies + [OverAck(ret, fileid)];
      }
      done := taken && ret == 0;
    }

    /** `cp_file_s2r`, for as long as the environment lasts. */
    method FileS2R(turns: seq<Turn>) returns (status: Status)
      requires Possible(turns) && View(Running).Writing()
      modifies this
      ensures View(status) == Run(old(View(Running)), turns)
    {
      hide Written, Finished, Digest.Matches, Order, Body;
      ghost var start := View(Running);
      for i := 0 to |turns|
        invariant View(Running) == Run(start, turns[..i])
      {
        var t := turns[i];
        assert turns[..i + 1][..i] == turns[..i];
        var heard := Heard(t.answer);
        if heard == EXIT {
          Stopped(start, turns, i + 1);
          return Exited;
        } else if heard == NTF_ROUTER_TRANSFER {
          var m := t.answer.message;
          var order := Order(m, usrid);
          if order == NTF_SYNC_FILE {
            BodyInMemory(m, usrid);
            var goesOn := SyncFile(Body(m), t.room, t.taken);
            if !goesOn {
              Stopped(start, turns, i + 1);
              return Exited;
            }
          } else if order == NTF_SYNC_OVER {
            BodyInMemory(m, usrid);
            var done := SyncOver(Body(m), t.digests, t.renames, t.taken);
            Stopped(start, turns, i + 1);
            return if done then Done else Exited;
          } else {
            Stopped(start, turns, i + 1);
            return Exited;
          }
        }
      }
      assert turns[..|turns|] == turns;
      return Running;
    }
  }

  /** One `write` of `len` bytes to a disk that takes `room` more: some of them, or an error. */
  method Disk(len: nat, room: nat) returns (ret: int)
    requires len > 0
    ensures ret <= len && ret <= room && (ret < 0 <==> room == 0) && ret != 0
  {
    if room == 0 {
      return -1;
    }
    ret :| 0 < ret <= len && ret <= room by {
      assert 0 < 1 <= len && 1 <= room;
    }
  }

  lemma {:induction false} Stopped(s: State, turns: seq<Turn>, n: nat)
    requires Possible(turns) && s.Writing() && n <= |turns| && Run(s, turns[..n]).status != Running
    ensures Run(s, turns) == Run(s, turns[..n])
    decreases |turns| - n
  {
    if n < |turns| {
      assert turns[..n + 1][..n] == turns[..n];
      Stopped(s, turns, n + 1);
    } else {
      assert turns[..n] == turns;
    }
  }
}
