/** Query strings: percent-decoding, and the list of keys and values that a request is parsed into. */
module QueryString {
  import opened Bytes

  const AMP: byte := '&' as int
  const EQUALS: byte := '=' as int
  const PERCENT: byte := '%' as int
  const VALUE_SIZE := 1024

  datatype Binding = Binding(key: seq<byte>, value: seq<byte>)

  // ---------- percent-decoding ----------

  predicate Escape(s: seq<byte>) {
    |s| >= 3 && s[0] == PERCENT && HexValue(s[1]).Some? && HexValue(s[2]).Some?
  }

  function Escaped(s: seq<byte>): byte
    requires Escape(s)
  {
    16 * HexValue(s[1]).value + HexValue(s[2]).value
  }

  /** At most `room` bytes of the decoded text. */
  function Decode(s: seq<byte>, room: nat): (r: seq<byte>)
    ensures |r| <= room
  {
    if s == [] || room == 0 then []
    else if Escape(s) then [Escaped(s)] + Decode(s[3..], room - 1)
    else [s[0]] + Decode(s[1..], room - 1)
  }

  /** `e` is a percent-encoding of `v`: each byte stands for itself or is escaped; a percent sign, an
      ampersand and a zero must be escaped. */
  ghost predicate Encodes(e: seq<byte>, v: seq<byte>)
    decreases |v|
  {
    if v == [] then e == []
    else
      || (e != [] && e[0] == v[0] && v[0] !in [PERCENT, AMP, 0] && Encodes(e[1..], v[1..]))
      || (Escape(e) && Escaped(e) == v[0] && Encodes(e[3..], v[1..]))
  }

  /** The characters that section 2.3 of RFC 3986 calls unreserved. */
  predicate Unreserved(c: byte) {
    || '0' as int <= c <= '9' as int || 'A' as int <= c <= 'Z' as int || 'a' as int <= c <= 'z' as int
    || c == '-' as int || c == '.' as int || c == '_' as int || c == '~' as int
  }

  /** The encoding of section 2.1 of RFC 3986. */
  function PercentEncode(v: seq<byte>): seq<byte> {
    if v == [] then []
    else
      var head := if Unreserved(v[0]) then [v[0]] else [PERCENT, HexDigit(v[0] / 16), HexDigit(v[0] % 16)];
      head + PercentEncode(v[1..])
  }

  lemma {:induction false} PercentEncodeEncodes(v: seq<byte>)
    ensures Encodes(PercentEncode(v), v)
  {
    if v != [] {
      PercentEncodeEncodes(v[1..]);
      var e, head := PercentEncode(v), if Unreserved(v[0]) then 1 else 3;
      assert e[head..] == PercentEncode(v[1..]);
    }
  }

  /** Decoding gives back what was encoded, as far as there is room. */
  lemma {:induction false} DecodeEncoded(e: seq<byte>, v: seq<byte>, room: nat)
    requires Encodes(e, v)
    ensures Decode(e, room) == if |v| <= room then v else v[..room]
    decreases |v|
  {
    if v != [] && room > 0 {
      var n := if Escape(e) then 3 else 1;
      assert Encodes(e[n..], v[1..]) && Decode(e, room) == [v[0]] + Decode(e[n..], room - 1);
      DecodeEncoded(e[n..], v[1..], room - 1);
      assert v == [v[0]] + v[1..];
      assert |v| > room ==> v[..room] == [v[0]] + v[1..][..room - 1];
    }
  }

  lemma {:induction false} EncodedIsClean(e: seq<byte>, v: seq<byte>)
    requires Encodes(e, v)
    ensures AMP !in e && 0 !in e
    decreases |v|
  {
    if v != [] {
      if e[0] == v[0] && v[0] !in [PERCENT, AMP, 0] {
        EncodedIsClean(e[1..], v[1..]);
        assert e == [e[0]] + e[1..];
      } else {
        EncodedIsClean(e[3..], v[1..]);
        assert e == e[..3] + e[3..];
      }
    }
  }

  // ---------- parsing ----------

  /** The position of the first `c`, or the length. */
  function Find(s: seq<byte>, c: byte): (i: nat)
    ensures i <= |s| && c !in s[..i] && (i < |s| ==> s[i] == c)
  {
    if s == [] || s[0] == c then 0 else
      var i := 1 + Find(s[1..], c);
      assert s[..i] == [s[0]] + s[1..][..i - 1];
      i
  }

  lemma FindIs(s: seq<byte>, c: byte, i: nat)
    requires i <= |s| && c !in s[..i] && (i < |s| ==> s[i] == c)
    ensures Find(s, c) == i
  {
    var j := Find(s, c);
    forall x | 0 <= x < i
      ensures s[x] != c
    {
      assert s[..i][x] == s[x];
    }
    forall x | 0 <= x < j
      ensures s[x] != c
    {
      assert s[..j][x] == s[x];
    }
  }

  /** What is stored for an encoded value: decoded, and cut at a zero. */
  function Stored(e: seq<byte>): seq<byte> {
    CString(Decode(e, VALUE_SIZE - 1))
  }

  function ParsePiece(p: seq<byte>): seq<Binding> {
    var q := Find(p, EQUALS);
    if q == |p| then [] else [Binding(p[..q], Stored(p[q + 1..]))]
  }

  /** The bindings of a query string, first to last. */
  function Parse(s: seq<byte>): seq<Binding> {
    var p := Find(s, AMP);
    ParsePiece(s[..p]) + if p < |s| then Parse(s[p + 1..]) else []
  }

  /** The list after `v_list_add` of each binding in turn: the last one comes first. */
  function Added(head: seq<Binding>, bs: seq<Binding>): seq<Binding>
    decreases |bs|
  {
    if bs == [] then head else Added([bs[0]] + head, bs[1..])
  }

  lemma {:induction false} AddedConcat(head: seq<Binding>, a: seq<Binding>, b: seq<Binding>)
    ensures Added(head, a + b) == Added(Added(head, a), b)
    decreases |a|
  {
    if a == [] {
      assert a + b == b;
    } else {
      assert (a + b)[1..] == a[1..] + b;
      AddedConcat([a[0]] + head, a[1..], b);
    }
  }

  /** `v_list_get`. */
  function Get(list: seq<Binding>, key: seq<byte>): Option<seq<byte>> {
    if list == [] then None
    else if list[0].key == key then Some(list[0].value)
    else Get(list[1..], key)
  }

  // ---------- the round trip ----------

  /** A key, its value, and an encoding of the value. */
  datatype Field = Field(key: seq<byte>, value: seq<byte>, encoded: seq<byte>)
  {
    ghost predicate Proper() {
      AMP !in key && EQUALS !in key && 0 !in key && Encodes(encoded, value)
    }
  }

  function Piece(f: Field): seq<byte> {
    f.key + [EQUALS] + f.encoded
  }

  function Query(fs: seq<Field>): seq<byte> {
    if fs == [] then []
    else if |fs| == 1 then Piece(fs[0])
    else Piece(fs[0]) + [AMP] + Query(fs[1..])
  }

  function Bound(f: Field): Binding {
    Binding(f.key, Stored(f.encoded))
  }

  function AllBound(fs: seq<Field>): seq<Binding> {
    seq(|fs|, i requires 0 <= i < |fs| => Bound(fs[i]))
  }

  lemma PieceParses(f: Field)
    requires f.Proper()
    ensures ParsePiece(Piece(f)) == [Bound(f)] && AMP !in Piece(f) && 0 !in Piece(f)
  {
    var p := Piece(f);
    EncodedIsClean(f.encoded, f.value);
    assert p[..|f.key|] == f.key;
    FindIs(p, EQUALS, |f.key|);
    assert p[|f.key| + 1..] == f.encoded;
  }

  lemma {:induction false} QueryParses(fs: seq<Field>)
    requires forall i :: 0 <= i < |fs| ==> fs[i].Proper()
    ensures Parse(Query(fs)) == AllBound(fs) && 0 !in Query(fs)
  {
    hide ParsePiece, Piece, Bound;
    if fs == [] {
      NothingParses();
    } else {
      var p, q := Piece(fs[0]), Query(fs);
      PieceParses(fs[0]);
      assert q[..|p|] == p;
      FindIs(q, AMP, |p|);
      if |fs| == 1 {
        assert Parse(q) == [Bound(fs[0])] + [];
      } else {
        QueryParses(fs[1..]);
        assert q[|p| + 1..] == Query(fs[1..]);
        assert AllBound(fs) == [Bound(fs[0])] + AllBound(fs[1..]);
      }
    }
  }

  lemma NothingParses()
    ensures Parse([]) == []
  {
  }

  /** The last field with this key. */
  ghost predicate LastOf(fs: seq<Field>, i: int) {
    0 <= i < |fs| && forall j :: i < j < |fs| ==> fs[j].key != fs[i].key
  }

  lemma {:induction false} GetLast(head: seq<Binding>, bs: seq<Binding>, i: nat)
    requires i < |bs| && forall j :: i < j < |bs| ==> bs[j].key != bs[i].key
    ensures Get(Added(head, bs), bs[i].key) == Some(bs[i].value)
    decreases |bs|
  {
    var n := |bs| - 1;
    AddedConcat(head, bs[..n], [bs[n]]);
    assert bs == bs[..n] + [bs[n]];
    var before := Added(head, bs[..n]);
    assert Added(before, [bs[n]]) == Added([bs[n]] + before, []) == [bs[n]] + before;
    if i < n {
      GetLast(head, bs[..n], i);
      assert ([bs[n]] + before)[1..] == before;
    }
  }

  lemma {:induction false} GetOther(head: seq<Binding>, bs: seq<Binding>, key: seq<byte>)
    requires forall j :: 0 <= j < |bs| ==> bs[j].key != key
    ensures Get(Added(head, bs), key) == Get(head, key)
    decreases |bs|
  {
    if bs != [] {
      GetOther([bs[0]] + head, bs[1..], key);
      assert ([bs[0]] + head)[1..] == head;
    }
  }

  lemma {:induction false} CleanIsText(s: seq<byte>)
    ensures CString(s) == s <==> 0 !in s
  {
    if 0 !in s {
      assert s[..|s|] == s;
      CStringIs(s, |s|);
    }
  }

  /** An encoded value is stored as it was exactly when it has at most 1023 bytes and no zero among them. */
  lemma StoredWholeIff(e: seq<byte>, v: seq<byte>)
    requires Encodes(e, v)
    ensures Stored(e) == v <==> |v| <= 1023 && 0 !in v
    ensures 0 !in v ==> Stored(e) == if |v| <= 1023 then v else v[..1023]
  {
    DecodeEncoded(e, v, VALUE_SIZE - 1);
    var d := Decode(e, VALUE_SIZE - 1);
    CleanIsText(d);
    if |v| >= VALUE_SIZE {
      assert |Stored(e)| <= |d|;
    }
  }

  /** A request with these fields, added to any list: each key has the value of its last field, cut at
      1023 bytes; other keys have the value they had. */
  lemma RoundTrip(head: seq<Binding>, fs: seq<Field>, key: seq<byte>)
    requires forall i :: 0 <= i < |fs| ==> fs[i].Proper() && 0 !in fs[i].value
    ensures var got := Get(Added(head, Parse(Query(fs))), key);
      && (forall i :: LastOf(fs, i) && fs[i].key == key ==>
           got == Some(if |fs[i].value| <= 1023 then fs[i].value else fs[i].value[..1023]))
      && ((forall i :: 0 <= i < |fs| ==> fs[i].key != key) ==> got == Get(head, key))
  {
    hide Parse, Query, Added, Get, Stored, Encodes;
    QueryParses(fs);
    var bs := AllBound(fs);
    forall i | LastOf(fs, i) && fs[i].key == key
      ensures Get(Added(head, bs), key)
           == Some(if |fs[i].value| <= 1023 then fs[i].value else fs[i].value[..1023])
    {
      GetLast(head, bs, i);
      StoredWholeIff(fs[i].encoded, fs[i].value);
    }
    if forall i :: 0 <= i < |fs| ==> fs[i].key != key {
      GetOther(head, bs, key);
    }
  }

  // ---------- text that no encoder writes ----------

  /** A piece without an equals sign binds nothing. */
  lemma BarePieceSkipped(p: seq<byte>, s: seq<byte>)
    requires AMP !in p && EQUALS !in p
    ensures Parse(p) == [] && Parse(p + [AMP] + s) == Parse(s)
  {
    hide Stored;
    var q := p + [AMP] + s;
    FindIs(p, AMP, |p|);
    FindIs(p, EQUALS, |p|);
    assert q[..|p|] == p && q[|p| + 1..] == s && p[..|p|] == p;
    FindIs(q, AMP, |p|);
  }

  /** Text without a complete escape is kept as it is, percent signs and plus signs too. */
  lemma {:induction false} PlainTextKept(s: seq<byte>, room: nat)
    requires forall i :: 0 <= i < |s| ==> !Escape(s[i..])
    ensures Decode(s, room) == if |s| <= room then s else s[..room]
    decreases |s|
  {
    if s != [] && room > 0 {
      assert s[0..] == s;
      forall i | 0 <= i < |s| - 1
        ensures !Escape(s[1..][i..])
      {
        assert s[1..][i..] == s[i + 1..];
      }
      PlainTextKept(s[1..], room - 1);
      assert s == [s[0]] + s[1..];
      assert |s| > room ==> s[..room] == [s[0]] + s[1..][..room - 1];
    }
  }

  /** The digits of an escape: upper and lower case letters are the same. */
  lemma EscapeDigits(v: int)
    requires 0 <= v < 16
    ensures HexDigit(v) == "0123456789ABCDEF"[v] as int && HexValue("0123456789abcdef"[v] as int) == Some(v)
    ensures HexValue(HexDigit(v)) == Some(v)
  {
  }

  /** A key that is not bound has no value, and one that has none is not bound. */
  lemma {:induction false} GetNoneIff(list: seq<Binding>, key: seq<byte>)
    ensures Get(list, key) == None <==> forall i :: 0 <= i < |list| ==> list[i].key != key
  {
    if list != [] {
      GetNoneIff(list[1..], key);
      assert forall i :: 1 <= i < |list| ==> list[i] == list[1..][i - 1];
    }
  }
}
