/** The requests that start a transfer, in either direction. */
module TransferRequest {
  import opened Bytes
  import opened TransferWire

  const NAME_MAX := 2047
  const MD5_MAX := 32

  /** What a request leaves in the session: the name and the digest as far as there is room for them. */
  datatype Request =
    | ToRouter(fileid: u32, name: seq<byte>, md5: seq<byte>, size: nat)
    | FromRouter(fileid: u32, name: seq<byte>, offset: nat)

  function Cut(s: seq<byte>, most: nat): seq<byte> {
    if |s| <= most then s else s[..most]
  }

  /** `cp_file_s2r_req`, for a session whose current file is `fileid`, 0 if there is none. */
  function ParseToRouter(body: seq<byte>, fileid: u32): (r: Option<Request>)
    requires |body| >= 2 && U16At(body, 0) <= |body|
    ensures r.Some? ==> fileid == 0 && r.value.ToRouter? && r.value.name != [] && 0 < |r.value.md5| <= MD5_MAX
  {
    var orderLen := U16At(body, 0) as int;
    if orderLen < 19 || fileid != 0 then None
    else
      var l := U16At(body, 8) as int;
      if l == 0 || orderLen < 19 + l then None
      else
        var m := body[10 + l] as int;
        var i := 11 + l;
        if m == 0 || orderLen < i + m + 8 then None
        else
          var name, md5 := Cut(body[10..10 + l], NAME_MAX), Cut(body[i..i + m], MD5_MAX);
          Some(ToRouter(U32At(body, 4), name, md5, U64At(body, i + m)))
  }

  /** `cp_file_r2s_req`. */
  function ParseFromRouter(body: seq<byte>, fileid: u32): (r: Option<Request>)
    requires |body| >= 2 && U16At(body, 0) <= |body|
    ensures r.Some? ==> fileid == 0 && r.value.FromRouter? && r.value.name != []
  {
    var orderLen := U16At(body, 0) as int;
    if orderLen < 18 || fileid != 0 then None
    else
      var l := U16At(body, 8) as int;
      if l == 0 || orderLen < 18 + l then None
      else Some(FromRouter(U32At(body, 4), Cut(body[10..10 + l], NAME_MAX), U64At(body, 10 + l)))
  }

  // ---------- the server's side ----------

  const REQ_TO_ROUTER: u16 := 5500
  const REQ_FROM_ROUTER: u16 := 5502

  /** The fields before the name. */
  function Head(len: nat, order: u16, fileid: u32, name: seq<byte>): (r: seq<byte>)
    requires len < 0x1_0000 && |name| < 0x1_0000
    ensures |r| == 10
  {
    Be16(len) + Be16(order) + Be32(fileid) + Be16(|name|)
  }

  function AskToRouter(fileid: u32, name: seq<byte>, md5: seq<byte>, size: nat): (r: seq<byte>)
    requires |name| + |md5| + 19 < 0x1_0000 && |md5| < 0x100 && size < 0x1_0000_0000_0000_0000
    ensures |r| == |name| + |md5| + 19
  {
    Head(|name| + |md5| + 19, REQ_TO_ROUTER, fileid, name) + name + ([|md5|] + md5) + Be64(size)
  }

  function AskFromRouter(fileid: u32, name: seq<byte>, offset: nat): (r: seq<byte>)
    requires |name| + 18 < 0x1_0000 && offset < 0x1_0000_0000_0000_0000
    ensures |r| == |name| + 18
  {
    Head(|name| + 18, REQ_FROM_ROUTER, fileid, name) + name + Be64(offset)
  }

  lemma HeadFields(len: nat, order: u16, fileid: u32, name: seq<byte>, rest: seq<byte>)
    requires len < 0x1_0000 && |name| < 0x1_0000
    ensures var s := Head(len, order, fileid, name) + rest;
      U16At(s, 0) == len && U32At(s, 4) == fileid && U16At(s, 8) == |name| && s[10..] == rest
  {
    var h := Head(len, order, fileid, name);
    Be32RoundTrip(fileid);
    assert h[4..8] == Be32(fileid);
    U32Slice(h, 4);
    PrefixFields(h, rest);
  }

  /** A request is read as it was asked, the name and digest cut to their room, exactly when no file is
      being transferred and neither is empty. */
  lemma ToRouterRoundTrip(fileid: u32, name: seq<byte>, md5: seq<byte>, size: nat, current: u32)
    requires |name| + |md5| + 19 < 0x1_0000 && |md5| < 0x100 && size < 0x1_0000_0000_0000_0000
    ensures ParseToRouter(AskToRouter(fileid, name, md5, size), current)
         == if current == 0 && name != [] && md5 != [] then
              Some(ToRouter(fileid, Cut(name, NAME_MAX), Cut(md5, MD5_MAX), size))
            else None
  {
    hide Head, Be64, U64At, U32At, U16At;
    var h, o := Head(|name| + |md5| + 19, REQ_TO_ROUTER, fileid, name), AskToRouter(fileid, name, md5, size);
    var rest := name + ([|md5|] + md5) + Be64(size);
    HeadFields(|o|, REQ_TO_ROUTER, fileid, name, rest);
    assert o == h + rest;
    var before := h + name + ([|md5|] + md5);
    assert o == before + Be64(size);
    Be64RoundTrip(before, size);
    assert o[10..10 + |name|] == name && o[10 + |name|] == |md5| && o[11 + |name|..11 + |name| + |md5|] == md5;
  }

  lemma FromRouterRoundTrip(fileid: u32, name: seq<byte>, offset: nat, current: u32)
    requires |name| + 18 < 0x1_0000 && offset < 0x1_0000_0000_0000_0000
    ensures ParseFromRouter(AskFromRouter(fileid, name, offset), current)
         == if current == 0 && name != [] then Some(FromRouter(fileid, Cut(name, NAME_MAX), offset)) else None
  {
    hide Head, Be64, U64At, U32At, U16At;
    var h, o := Head(|name| + 18, REQ_FROM_ROUTER, fileid, name), AskFromRouter(fileid, name, offset);
    HeadFields(|o|, REQ_FROM_ROUTER, fileid, name, name + Be64(offset));
    assert o == h + (name + Be64(offset));
    Be64RoundTrip(h + name, offset);
    assert o[10..10 + |name|] == name;
  }
}
