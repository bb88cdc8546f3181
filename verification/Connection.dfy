/** A request's list of keys and values, filled from a query string that is cut up in place. */
module Connection {
  import opened Bytes
  import opened QueryString

  /** The C string that starts at `from` ends at `end`. */
  ghost predicate Text(buf: array<byte>, from: int, end: nat)
    reads buf
  {
    0 <= from <= end < buf.Length && buf[end] == 0 && 0 !in buf[from..end]
  }

  /** `strchr`. */
  method StrChr(buf: array<byte>, from: nat, c: byte, ghost end: nat) returns (pos: int)
    requires Text(buf, from, end) && c != 0
    ensures pos == var n := Find(buf[from..end], c); if n < end - from then from + n else -1
  {
    var i := from;
    while buf[i] != 0 && buf[i] != c
      invariant from <= i <= end && c !in buf[from..i]
      decreases end - i
    {
      assert buf[from..i + 1] == buf[from..i] + [buf[i]];
      assert i == end || buf[i] == buf[from..end][i - from];
      i := i + 1;
    }
    assert buf[from..end][..i - from] == buf[from..i];
    assert i < end ==> buf[i] == buf[from..end][i - from] != 0;
    FindIs(buf[from..end], c, i - from);
    pos := if buf[i] == 0 then -1 else i;
  }

  /** A byte of a C string, or the zero after it. */
  function At(s: seq<byte>, i: nat): byte {
    if i < |s| then s[i] else 0
  }

  lemma DecodeAt(s: seq<byte>, i: nat, room: nat)
    requires i < |s| && 0 !in s && room > 0
    ensures var escape := s[i] == PERCENT && HexValue(At(s, i + 1)).Some? && HexValue(At(s, i + 2)).Some?;
      if escape then
        && i + 3 <= |s|
        && Decode(s[i..], room)
           == [16 * HexValue(s[i + 1]).value + HexValue(s[i + 2]).value] + Decode(s[i + 3..], room - 1)
      else
        Decode(s[i..], room) == [s[i]] + Decode(s[i + 1..], room - 1)
  {
    var rest := s[i..];
    assert rest[1..] == s[i + 1..];
    assert |rest| >= 3 ==> rest[3..] == s[i + 3..];
  }

  lemma DecodeNothing(s: seq<byte>, room: nat)
    requires s == [] || room == 0
    ensures Decode(s, room) == []
  {
  }

  /** The byte that one turn of the loop of `str_decode_url` writes, and where the next one reads. */
  method DecodeOne(src: seq<byte>, i: nat, ghost room: nat) returns (b: byte, next: nat)
    requires 0 !in src && i < |src| && room > 0
    ensures i < next <= |src| && Decode(src[i..], room) == [b] + Decode(src[next..], room - 1)
  {
    hide Decode;
    DecodeAt(src, i, room);
    if src[i] == PERCENT && HexValue(At(src, i + 1)).Some? && HexValue(At(src, i + 2)).Some? {
      return 16 * HexValue(src[i + 1]).value + HexValue(src[i + 2]).value, i + 3;
    }
    return src[i], i + 1;
  }

  /** `str_decode_url`. */
  method StrDecodeUrl(src: seq<byte>, dst: array<byte>) returns (len: nat)
    requires 0 !in src && dst.Length > 0
    modifies dst
    ensures len < dst.Length && dst[..len] == Decode(src, dst.Length - 1) && dst[len] == 0
  {
    hide Decode;
    var i, j := 0, 0;
    assert src[0..] == src && dst[..0] + Decode(src, dst.Length - 1) == Decode(src, dst.Length - 1);
    while i < |src| && j < dst.Length - 1
      invariant 0 <= i <= |src| && 0 <= j < dst.Length
      invariant dst[..j] + Decode(src[i..], dst.Length - 1 - j) == Decode(src, dst.Length - 1)
    {
      ghost var done, room := dst[..j], dst.Length - 1 - j;
      var b, next := DecodeOne(src, i, room);
      assert done + ([b] + Decode(src[next..], room - 1)) == done + [b] + Decode(src[next..], room - 1);
      dst[j] := b;
      i, j := next, j + 1;
      assert dst[..j] == done + [b];
    }
    DecodeNothing(src[i..], dst.Length - 1 - j);
    dst[j] := 0;
    len := j;
  }

  // ---------- the cut buffer ----------

  function CutPiece(p: seq<byte>): (r: seq<byte>)
    ensures |r| == |p|
  {
    var q := Find(p, EQUALS);
    if q < |p| then p[..q] + [0] + p[q + 1..] else p
  }

  /** Every ampersand, and the first equals sign of each piece, made a zero. */
  function Cut(s: seq<byte>): (r: seq<byte>)
    ensures |r| == |s|
  {
    var p := Find(s, AMP);
    CutPiece(s[..p]) + if p < |s| then [0] + Cut(s[p + 1..]) else []
  }

  /** An equals sign with no other between it and the last ampersand before it. */
  ghost predicate Separates(s: seq<byte>, i: int)
    requires 0 <= i < |s|
  {
    s[i] == EQUALS && exists k :: 0 <= k <= i && StartsPiece(s, k) && AMP !in s[k..i] && EQUALS !in s[k..i]
  }

  predicate StartsPiece(s: seq<byte>, k: int)
    requires 0 <= k <= |s|
  {
    k == 0 || s[k - 1] == AMP
  }

  lemma Absent(s: seq<byte>, c: byte, a: nat, b: nat)
    requires a <= b <= |s| && c !in s[a..b]
    ensures forall i :: a <= i < b ==> s[i] != c
  {
    assert forall i :: a <= i < b ==> s[i] == s[a..b][i - a];
  }

  lemma FirstPiece(s: seq<byte>, p: nat, i: nat)
    requires i < p <= |s| && AMP !in s[0..p]
    ensures Separates(s, i) <==> i == Find(s[..p], EQUALS)
  {
    var piece := s[..p];
    if i == Find(piece, EQUALS) {
      assert piece[..i] == s[0..i] && StartsPiece(s, 0);
      assert forall x :: 0 <= x < i ==> s[0..i][x] == piece[x];
    }
    if Separates(s, i) {
      var k :| 0 <= k <= i && StartsPiece(s, k) && AMP !in s[k..i] && EQUALS !in s[k..i];
      Absent(s, AMP, 0, p);
      assert piece[..i] == s[k..i];
      FindIs(piece, EQUALS, i);
    }
  }

  lemma LaterPiece(s: seq<byte>, p: nat, i: nat)
    requires p < i < |s| && s[p] == AMP
    ensures Separates(s, i) <==> Separates(s[p + 1..], i - p - 1)
  {
    var rest, j := s[p + 1..], i - p - 1;
    if Separates(s, i) {
      var k :| 0 <= k <= i && StartsPiece(s, k) && AMP !in s[k..i] && EQUALS !in s[k..i];
      Absent(s, AMP, k, i);
      assert rest[k - p - 1..j] == s[k..i] && StartsPiece(rest, k - p - 1);
    }
    if Separates(rest, j) {
      var k :| 0 <= k <= j && StartsPiece(rest, k) && AMP !in rest[k..j] && EQUALS !in rest[k..j];
      assert s[k + p + 1..i] == rest[k..j] && StartsPiece(s, k + p + 1);
    }
  }

  /** The cut buffer has a zero exactly where there was one, an ampersand, or a separating equals sign; it is
      the same elsewhere. */
  lemma {:induction false} CutIs(s: seq<byte>, i: nat)
    requires i < |s|
    ensures Cut(s)[i] == if s[i] == AMP || Separates(s, i) then 0 else s[i]
    decreases |s|
  {
    hide Separates, Cut, CutPiece, Find;
    var p := Find(s, AMP);
    CutAt(s, i);
    if i < p {
      assert s[0..p] == s[..p];
      PieceAt(s[..p], i);
      FirstPiece(s, p, i);
      Absent(s, AMP, 0, p);
    } else if i > p {
      CutIs(s[p + 1..], i - p - 1);
      LaterPiece(s, p, i);
    }
  }

  lemma CutAt(s: seq<byte>, i: nat)
    requires i < |s|
    ensures var p := Find(s, AMP);
      Cut(s)[i] == if i < p then CutPiece(s[..p])[i] else if i == p then 0 else Cut(s[p + 1..])[i - p - 1]
  {
    hide CutPiece;
  }

  lemma PieceAt(piece: seq<byte>, i: nat)
    requires i < |piece|
    ensures CutPiece(piece)[i] == if i == Find(piece, EQUALS) then 0 else piece[i]
  {
    hide Find;
    var q := Find(piece, EQUALS);
    if q < |piece| {
      var r := piece[..q] + [0] + piece[q + 1..];
      assert i < q ==> r[i] == piece[i];
      assert i > q ==> r[i] == piece[q + 1..][i - q - 1] == piece[i];
    }
  }

  /** What one piece adds to a list, and how it is cut. */
  lemma OneBinding(list: seq<Binding>, p: seq<byte>)
    ensures var q := Find(p, EQUALS);
      if q < |p| then
        && Added(list, ParsePiece(p)) == [Binding(p[..q], CString(Decode(p[q + 1..], VALUE_SIZE - 1)))] + list
        && CutPiece(p) == p[..q] + [0] + p[q + 1..]
      else Added(list, ParsePiece(p)) == list && CutPiece(p) == p
  {
    hide Find, Decode, CString;
    var bs := ParsePiece(p);
    if bs != [] {
      assert bs[1..] == [] && Added([bs[0]] + list, []) == [bs[0]] + list;
    }
  }

  class Con {
    var head: seq<Binding>

    constructor ()
      ensures head == []
    {
      head := [];
    }

    /** `v_list_add`. */
    method VListAdd(key: seq<byte>, value: seq<byte>)
      modifies this
      ensures head == [Binding(key, value)] + old(head)
    {
      head := [Binding(key, value)] + head;
    }

    /** `v_list_get`. */
    method VListGet(key: seq<byte>) returns (value: Option<seq<byte>>)
      ensures value == Get(head, key)
    {
      for i := 0 to |head|
        invariant Get(head, key) == Get(head[i..], key)
      {
        if head[i].key == key {
          return Some(head[i].value);
        }
        assert head[i..][1..] == head[i + 1..];
      }
      value := None;
    }

    /** One piece of the query string, which is from `key` to `end`. */
    method ParsePiece(src: array<byte>, key: nat, end: nat)
      requires Text(src, key, end)
      modifies this, src
      ensures head == Added(old(head), QueryString.ParsePiece(old(src[key..end])))
      ensures src[key..end] == CutPiece(old(src[key..end]))
      ensures forall x :: 0 <= x < src.Length && (x < key || end <= x) ==> src[x] == old(src[x])
    {
      hide Decode, Find, Added, QueryString.ParsePiece, CutPiece;
      ghost var p := src[key..end];
      var value := StrChr(src, key, EQUALS, end);
      OneBinding(head, p);
      if value < 0 {
        return;
      }
      ghost var q := value - key;
      assert src[value + 1..end] == p[q + 1..] && src[key..value] == p[..q];
      src[value] := 0;
      value := value + 1;
      assert src[key..end] == p[..q] + [0] + p[q + 1..];
      var text := src[value..end];
      assert text == p[q + 1..];
      var tmp := new byte[VALUE_SIZE];
      var n := StrDecodeUrl(text, tmp);
      VListAdd(src[key..value - 1], CString(tmp[..n]));
    }

    /** `connection_parse`. */
    method Parse(src: array<byte>, end: nat)
      requires Text(src, 0, end)
      modifies this, src
      ensures head == Added(old(head), QueryString.Parse(old(src[..end])))
      ensures src[..end] == Cut(old(src[..end])) && src[end..] == old(src[end..])
    {
      hide QueryString.Parse, Cut, Added, QueryString.ParsePiece, CutPiece, Progress;
      ghost var was, head0 := src[..], head;
      Begun(was, end, head);
      assert was[..end] == src[..end] && was[end..] == src[end..];
      var key: int := 0;
      while key != -1
        invariant -1 <= key <= end && |src[..]| == |was| && Progress(was, end, head0, src[..], key, head)
        decreases if key == -1 then 0 else end + 1 - key
      {
        ghost var before, list, start := src[..], head, key;
        Unread(was, end, head0, before, key, head);
        var pend := StrChr(src, key, AMP, end);
        var stop := if pend >= 0 then pend else end;
        if pend >= 0 {
          src[pend] := 0;
          pend := pend + 1;
        }
        assert src[key..stop] == was[key..stop];
        ParsePiece(src, key, stop);
        key := pend;
        Advance(was, end, head0, before, start, list, src[..], head);
      }
      Finished(was, end, head0, src[..], head);
    }
  }

  /** How far the parse has come: `was` is the buffer at the start, and what lies from `key` on is as it
      was; -1 stands for the null pointer. */
  ghost predicate Progress(was: seq<byte>, end: nat, head0: seq<Binding>, buf: seq<byte>, key: int, head: seq<Binding>)
    requires end < |was| && |buf| == |was| && -1 <= key <= end
  {
    && (forall x :: (if key == -1 then end else key) <= x < |was| ==> buf[x] == was[x])
    && if key == -1 then
         head == Added(head0, QueryString.Parse(was[..end])) && buf[..end] == Cut(was[..end])
       else
         && Added(head, QueryString.Parse(was[key..end])) == Added(head0, QueryString.Parse(was[..end]))
         && buf[..key] + Cut(was[key..end]) == Cut(was[..end])
  }

  lemma Begun(was: seq<byte>, end: nat, head: seq<Binding>)
    requires end < |was|
    ensures Progress(was, end, head, was, 0, head)
  {
    assert was[0..end] == was[..end] && was[..0] + Cut(was[..end]) == Cut(was[..end]);
  }

  lemma Unread(was: seq<byte>, end: nat, head0: seq<Binding>, buf: seq<byte>, key: int, head: seq<Binding>)
    requires end < |was| && |buf| == |was| && 0 <= key <= end && Progress(was, end, head0, buf, key, head)
    ensures buf[key..end] == was[key..end] && buf[end..] == was[end..]
    ensures forall x :: key <= x < |was| ==> buf[x] == was[x]
  {
    hide QueryString.Parse, Cut, Added;
  }

  lemma Finished(was: seq<byte>, end: nat, head0: seq<Binding>, buf: seq<byte>, head: seq<Binding>)
    requires end < |was| && |buf| == |was| && Progress(was, end, head0, buf, -1, head)
    ensures head == Added(head0, QueryString.Parse(was[..end]))
    ensures buf[..end] == Cut(was[..end]) && buf[end..] == was[end..]
  {
    hide QueryString.Parse, Cut, Added;
  }

  /** One piece is cut off and parsed. */
  lemma Advance(was: seq<byte>, end: nat, head0: seq<Binding>, buf: seq<byte>, key: int, head: seq<Binding>,
                after: seq<byte>, list: seq<Binding>)
    requires end < |was| == |buf| == |after| && 0 <= key <= end && Progress(was, end, head0, buf, key, head)
    requires var p := Find(was[key..end], AMP);
      && list == Added(head, QueryString.ParsePiece(was[key..key + p]))
      && after[key..key + p] == CutPiece(was[key..key + p])
      && (key + p < end ==> after[key + p] == 0)
      && (forall x :: 0 <= x < key || key + p < x < |was| || x == end ==> after[x] == buf[x])
    ensures var p := Find(was[key..end], AMP);
      Progress(was, end, head0, after, if key + p < end then key + p + 1 else -1, list)
  {
    hide CutPiece, Cut, QueryString.ParsePiece, QueryString.Parse, Added;
    var rest := was[key..end];
    var p := Find(rest, AMP);
    OnePiece(head, rest);
    assert rest[..p] == was[key..key + p];
    assert after[..key] == buf[..key];
    if key + p < end {
      var next := key + p + 1;
      assert rest[p + 1..] == was[next..end];
      assert after[..next] == buf[..key] + (after[key..key + p] + [0]);
      assert after[..next] + Cut(was[next..end]) == buf[..key] + (CutPiece(rest[..p]) + ([0] + Cut(was[next..end])));
    } else {
      assert after[..end] == buf[..key] + after[key..key + p];
      assert CutPiece(rest[..p]) + [] == CutPiece(rest[..p]);
    }
  }

  lemma OnePiece(list: seq<Binding>, s: seq<byte>)
    ensures var p := Find(s, AMP);
      var now := Added(list, QueryString.ParsePiece(s[..p]));
      && Added(list, QueryString.Parse(s)) == (if p < |s| then Added(now, QueryString.Parse(s[p + 1..])) else now)
      && Cut(s) == CutPiece(s[..p]) + if p < |s| then [0] + Cut(s[p + 1..]) else []
  {
    hide QueryString.ParsePiece, CutPiece, Added;
    var p := Find(s, AMP);
    AddedConcat(list, QueryString.ParsePiece(s[..p]), if p < |s| then QueryString.Parse(s[p + 1..]) else []);
    assert QueryString.ParsePiece(s[..p]) + [] == QueryString.ParsePiece(s[..p]);
  }
}
