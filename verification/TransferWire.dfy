/** Orders of the file transfer between router and cloud server, and the frame that carries them. */
module TransferWire {
  import opened Bytes

  const BUF_MAX := 61440

  const EXIT: u16 := 0
  const NTF_ROUTER_TRANSFER: u16 := 5305
  const ACK_ROUTER_TRANSFER: u16 := 5306
  const NTF_SYNC_FILE: u16 := 5504
  const ACK_SYNC_FILE: u16 := 5505
  const NTF_SYNC_OVER: u16 := 5506
  const ACK_SYNC_OVER: u16 := 5507
  const FAIL: u16 := 10001

  /** A received frame: its length, and the memory from its first byte on. What lies past the end of
      the frame is not specified, and `Order` lets a frame pass that is two bytes too short. */
  datatype Message = Message(data: seq<byte>, len: nat)
  {
    ghost predicate Received() {
      4 <= len <= BUF_MAX && len + 2 <= |data|
    }
  }

  // ---------- what the router writes ----------

  function Header(len: nat, key: u32, usrid: u32): (r: seq<byte>)
    requires len + 14 < 0x1_0000
    ensures |r| == 14
  {
    Be16(len + 14) + Be16(NTF_ROUTER_TRANSFER) + Be32(key) + Be32(usrid) + Be16(len)
  }

  function Frame(key: u32, usrid: u32, order: seq<byte>): (r: seq<byte>)
    requires |order| + 14 < 0x1_0000
    ensures |r| == 14 + |order|
  {
    Header(|order|, key, usrid) + order
  }

  function DataOrder(fileid: u32, payload: seq<byte>): (r: seq<byte>)
    requires |payload| + 12 < 0x1_0000
    ensures |r| == |payload| + 12
  {
    Be16(|payload| + 12) + Be16(NTF_SYNC_FILE) + Be32(fileid) + Be32(|payload|) + payload
  }

  function OverOrder(fileid: u32): (r: seq<byte>)
    ensures |r| == 8
  {
    Be16(8) + Be16(NTF_SYNC_OVER) + Be32(fileid)
  }

  function FileAck(ret: u16, fileid: u32, len: u32): (r: seq<byte>)
    ensures |r| == 14
  {
    Be16(14) + Be16(ACK_SYNC_FILE) + Be16(ret) + Be32(fileid) + Be32(len)
  }

  function OverAck(ret: u16, fileid: u32): (r: seq<byte>)
    ensures |r| == 10
  {
    Be16(10) + Be16(ACK_SYNC_OVER) + Be16(ret) + Be32(fileid)
  }

  function Be64(x: nat): (s: seq<byte>)
    requires x < 0x1_0000_0000_0000_0000
    ensures |s| == 8
  {
    Be32(x / 0x1_0000_0000) + Be32(x % 0x1_0000_0000)
  }

  function U64At(s: seq<byte>, i: nat): nat
    requires i + 8 <= |s|
  {
    U32At(s, i) * 0x1_0000_0000 + U32At(s, i + 4)
  }

  // ---------- what the router reads ----------

  /** `cc_recv` on a stream that holds `stream` before it ends. */
  function Recv(stream: seq<byte>, slack: seq<byte>): (m: Option<Message>)
    requires |slack| >= 2
    ensures m.Some? ==> m.value.Received()
  {
    if |stream| < 4 then None
    else
      var l := U16At(stream, 0) as int;
      if l < 4 || l > BUF_MAX || |stream| < l then None
      else Some(Message(stream[..l] + slack, l))
  }

  /** What a wait of `cp_wait` ends with: nothing, or a frame. */
  datatype Answer = Silence | Got(message: Message)

  /** The order of the frame itself, as `cp_wait` returns it. */
  function Heard(a: Answer): u16
    requires a.Got? ==> a.message.Received()
  {
    match a
    case Silence => EXIT
    case Got(m) => U16At(m.data, 2)
  }

  /** `cp_transfer`. */
  function Order(m: Message, usrid: u32): u16
    requires m.Received()
  {
    if m.len < 18 || U32At(m.data, 8) != usrid then EXIT
    else
      var len := U16At(m.data, 12);
      if len != U16At(m.data, 14) || m.len < len + 12 then EXIT
      else U16At(m.data, 16)
  }

  /** An order is taken only from a frame for this user whose two length fields agree and do not reach more
      than two bytes past its end. */
  lemma OrderMeans(m: Message, usrid: u32)
    requires m.Received() && Order(m, usrid) != 0
    ensures 18 <= m.len && U32At(m.data, 8) == usrid && U16At(m.data, 12) == U16At(m.data, 14) <= m.len - 12
    ensures Order(m, usrid) == U16At(m.data, 16)
  {
  }

  /** The order inside a frame, with its length field first. */
  function Body(m: Message): seq<byte>
    requires m.Received() && 14 <= m.len
  {
    m.data[14..]
  }

  lemma BodyInMemory(m: Message, usrid: u32)
    requires m.Received() && Order(m, usrid) != EXIT
    ensures 18 <= m.len && U16At(Body(m), 0) <= |Body(m)| && 4 <= |Body(m)|
  {
    assert Body(m)[0] == m.data[14] && Body(m)[1] == m.data[15];
  }

  /** An order as it stands in a frame: its first field is its length. */
  ghost predicate WellFormed(order: seq<byte>) {
    4 <= |order| && |order| + 14 < 0x1_0000 && U16At(order, 0) == |order|
  }

  lemma DataOrderFields(fileid: u32, payload: seq<byte>)
    requires |payload| + 26 < 0x1_0000
    ensures var o := DataOrder(fileid, payload);
      && WellFormed(o) && U16At(o, 2) == 5504 && U32At(o, 4) == fileid
      && U32At(o, 8) == |payload| && o[12..] == payload
  {
    var o := DataOrder(fileid, payload);
    Be32RoundTrip(fileid);
    Be32RoundTrip(|payload|);
    assert o[4..8] == Be32(fileid) && o[8..12] == Be32(|payload|);
    U32Slice(o, 4);
    U32Slice(o, 8);
  }

  lemma OverOrderFields(fileid: u32)
    ensures var o := OverOrder(fileid);
      WellFormed(o) && U16At(o, 2) == 5506 && U32At(o, 4) == fileid
  {
    var o := OverOrder(fileid);
    Be32RoundTrip(fileid);
    assert o[4..8] == Be32(fileid);
    U32Slice(o, 4);
  }

  lemma AckFields(ret: u16, fileid: u32, len: u32)
    ensures var o := FileAck(ret, fileid, len);
      && WellFormed(o) && U16At(o, 2) == 5505 && U16At(o, 4) == ret && U32At(o, 6) == fileid
      && U32At(o, 10) == len
    ensures var o := OverAck(ret, fileid);
      WellFormed(o) && U16At(o, 2) == 5507 && U16At(o, 4) == ret && U32At(o, 6) == fileid
  {
    Be32RoundTrip(fileid);
    Be32RoundTrip(len);
    var o, p := FileAck(ret, fileid, len), OverAck(ret, fileid);
    assert o[6..10] == Be32(fileid) && p[6..10] == Be32(fileid) && o[10..14] == Be32(len);
    U32Slice(o, 6);
    U32Slice(o, 10);
    U32Slice(p, 6);
  }

  lemma U32Slice(s: seq<byte>, i: nat)
    requires i + 4 <= |s|
    ensures U32At(s[i..i + 4], 0) == U32At(s, i)
  {
  }

  lemma Be64RoundTrip(s: seq<byte>, x: nat)
    requires x < 0x1_0000_0000_0000_0000
    ensures U64At(s + Be64(x), |s|) == x
  {
    var w := s + Be64(x);
    Be32RoundTrip(x / 0x1_0000_0000);
    Be32RoundTrip(x % 0x1_0000_0000);
    assert w[|s|..|s| + 4] == Be32(x / 0x1_0000_0000) && w[|s| + 4..|s| + 8] == Be32(x % 0x1_0000_0000);
    U32Slice(w, |s|);
    U32Slice(w, |s| + 4);
  }

  lemma HeaderFields(len: nat, key: u32, usrid: u32)
    requires len + 14 < 0x1_0000
    ensures var h := Header(len, key, usrid);
      && U16At(h, 0) == len + 14 && U16At(h, 2) == 5305 && U32At(h, 4) == key && U32At(h, 8) == usrid
      && U16At(h, 12) == len
  {
    var h := Header(len, key, usrid);
    Be32RoundTrip(key);
    Be32RoundTrip(usrid);
    assert h[4..8] == Be32(key) && h[8..12] == Be32(usrid);
    U32Slice(h, 4);
    U32Slice(h, 8);
  }

  /** Fields of a prefix. */
  lemma PrefixFields(h: seq<byte>, rest: seq<byte>)
    ensures forall i: nat :: i + 2 <= |h| ==> U16At(h + rest, i) == U16At(h, i)
    ensures forall i: nat :: i + 4 <= |h| ==> U32At(h + rest, i) == U32At(h, i)
  {
  }

  /** An order put in a frame by `cp_transfer_send` is read back by `cc_recv` and `cp_transfer` exactly
      when the frame is not longer than the receive limit. */
  lemma FrameReadBackIff(key: u32, usrid: u32, order: seq<byte>, rest: seq<byte>, slack: seq<byte>)
    requires WellFormed(order) && |slack| >= 2
    ensures var m := Recv(Frame(key, usrid, order) + rest, slack);
      && (m.Some? <==> |order| + 14 <= BUF_MAX)
      && (m.Some? ==> m.value == Message(Frame(key, usrid, order) + slack, |order| + 14))
      && (m.Some? ==> Order(m.value, usrid) == U16At(order, 2) && Body(m.value) == order + slack
                      && U16At(m.value.data, 2) == NTF_ROUTER_TRANSFER)
  {
    hide Header, Frame, U16At, U32At;
    var f, h := Frame(key, usrid, order), Header(|order|, key, usrid);
    FrameIsHeader(key, usrid, order);
    HeaderFields(|order|, key, usrid);
    PrefixFields(h, order + rest);
    assert f + rest == h + (order + rest);
    if |f| <= BUF_MAX {
      var m := Recv(f + rest, slack).value;
      assert (f + rest)[..|f|] == f;
      assert m.data == h + (order + slack);
      PrefixFields(h, order + slack);
      assert m.data[14..] == order + slack;
      FieldAfter(h, order + slack, 0);
      FieldAfter(h, order + slack, 2);
      PrefixFields(order, slack);
    }
  }

  lemma FrameIsHeader(key: u32, usrid: u32, order: seq<byte>)
    requires |order| + 14 < 0x1_0000
    ensures Frame(key, usrid, order) == Header(|order|, key, usrid) + order
  {
  }

  lemma FieldAfter(h: seq<byte>, rest: seq<byte>, i: nat)
    requires i + 2 <= |rest|
    ensures U16At(h + rest, |h| + i) == U16At(rest, i)
  {
  }

  const SEND_MX := 61440

  /** A full block of a router-to-server transfer makes a frame that the router's own receiver would
      refuse: 26 bytes over its limit. */
  lemma FullBlockRefused(key: u32, usrid: u32, fileid: u32, payload: seq<byte>, slack: seq<byte>)
    requires |payload| <= 61440 && |slack| >= 2
    ensures Recv(Frame(key, usrid, DataOrder(fileid, payload)), slack).Some? <==> |payload| <= 61414
  {
    DataOrderFields(fileid, payload);
    var f := Frame(key, usrid, DataOrder(fileid, payload));
    assert f + [] == f;
    FrameReadBackIff(key, usrid, DataOrder(fileid, payload), [], slack);
  }
}
