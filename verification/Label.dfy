/** Volume labels: UTF-16 in either byte order turned into UTF-8, and trailing white space cut off. */
module Label {
  import opened Bytes

  type Unit = x: int | 0 <= x < 0x1_0000

  // ---------- UTF-16 ----------

  function UnitAt(src: seq<byte>, i: nat, little: bool): Unit
    requires i + 2 <= |src|
  {
    if little then src[i + 1] as int * 0x100 + src[i] as int else src[i] as int * 0x100 + src[i + 1] as int
  }

  /** The code units from position `i` to the first zero or the end; an odd last byte is not one. */
  function Units(src: seq<byte>, i: nat, little: bool): (us: seq<Unit>)
    ensures 0 !in us
    decreases |src| - i
  {
    if i + 2 > |src| || UnitAt(src, i, little) == 0 then []
    else [UnitAt(src, i, little)] + Units(src, i + 2, little)
  }

  // ---------- UTF-8 ----------

  /** Each code unit by itself, halves of surrogate pairs too. */
  function Utf8(c: Unit): (r: seq<byte>)
    ensures 1 <= |r| <= 3
  {
    if c < 0x80 then [c]
    else if c < 0x800 then [0xC0 + c / 0x40, 0x80 + c % 0x40]
    else [0xE0 + c / 0x1000, 0x80 + c / 0x40 % 0x40, 0x80 + c % 0x40]
  }

  function Utf8All(us: seq<Unit>): seq<byte> {
    if us == [] then [] else Utf8(us[0]) + Utf8All(us[1..])
  }

  predicate Tail(b: byte) {
    0x80 <= b < 0xC0
  }

  /** The decoder of that encoding: forms of up to three bytes, none longer than needed. It is not a decoder
      of UTF-8, as it takes the form of half a surrogate pair too. */
  function Decode(s: seq<byte>): Option<seq<Unit>> {
    if s == [] then Some([])
    else if s[0] < 0x80 then Then(s[0], Decode(s[1..]))
    else if 0xC2 <= s[0] < 0xE0 && |s| >= 2 && Tail(s[1]) then
      Then((s[0] as int - 0xC0) * 0x40 + s[1] as int - 0x80, Decode(s[2..]))
    else if 0xE0 <= s[0] < 0xF0 && |s| >= 3 && Tail(s[1]) && Tail(s[2]) && (s[0] > 0xE0 || s[1] >= 0xA0) then
      Then((s[0] as int - 0xE0) * 0x1000 + (s[1] as int - 0x80) * 0x40 + s[2] as int - 0x80, Decode(s[3..]))
    else None
  }

  function Then(c: Unit, rest: Option<seq<Unit>>): Option<seq<Unit>> {
    match rest case None => None case Some(us) => Some([c] + us)
  }

  lemma DecodeOne(c: Unit, rest: seq<byte>)
    ensures Decode(Utf8(c) + rest) == Then(c, Decode(rest))
  {
    var s, n := Utf8(c) + rest, |Utf8(c)|;
    assert s[n..] == rest && s[..n] == Utf8(c);
    assert c == c / 0x1000 * 0x1000 + c / 0x40 % 0x40 * 0x40 + c % 0x40;
  }

  lemma {:induction false} DecodeAll(us: seq<Unit>)
    ensures Decode(Utf8All(us)) == Some(us)
  {
    if us != [] {
      DecodeAll(us[1..]);
      DecodeOne(us[0], Utf8All(us[1..]));
      assert us == [us[0]] + us[1..];
    }
  }

  /** Half of a surrogate pair. */
  predicate Surrogate(c: int) {
    0xD800 <= c < 0xE000
  }

  predicate In(b: byte, low: int, high: int) {
    low <= b <= high
  }

  /** The length of a first character by the syntax of section 4 of RFC 3629, 0 if there is none. */
  function CharLength(s: seq<byte>): (n: nat)
    ensures n <= |s|
  {
    if s == [] then 0
    else if s[0] < 0x80 then 1
    else if In(s[0], 0xC2, 0xDF) && |s| >= 2 && Tail(s[1]) then 2
    else if |s| >= 3 && Tail(s[2]) && ThreeBytes(s[0], s[1]) then 3
    else if |s| >= 4 && Tail(s[2]) && Tail(s[3]) && FourBytes(s[0], s[1]) then 4
    else 0
  }

  predicate ThreeBytes(b: byte, c: byte) {
    || (b == 0xE0 && In(c, 0xA0, 0xBF)) || (In(b, 0xE1, 0xEC) && Tail(c))
    || (b == 0xED && In(c, 0x80, 0x9F)) || (In(b, 0xEE, 0xEF) && Tail(c))
  }

  predicate FourBytes(b: byte, c: byte) {
    || (b == 0xF0 && In(c, 0x90, 0xBF)) || (In(b, 0xF1, 0xF3) && Tail(c)) || (b == 0xF4 && In(c, 0x80, 0x8F))
  }

  /** Well-formed UTF-8. */
  predicate IsUtf8(s: seq<byte>) {
    s == [] || (CharLength(s) > 0 && IsUtf8(s[CharLength(s)..]))
  }

  lemma UnitIsChar(c: Unit, rest: seq<byte>)
    ensures CharLength(Utf8(c) + rest) == if Surrogate(c) then 0 else |Utf8(c)|
  {
    var s, u := Utf8(c) + rest, Utf8(c);
    assert forall i :: 0 <= i < |u| ==> s[i] == u[i];
    if c >= 0x800 {
      assert c == c / 0x1000 * 0x1000 + c / 0x40 % 0x40 * 0x40 + c % 0x40;
    }
  }

  /** The encoding of units is well-formed UTF-8 exactly when no half of a surrogate pair is among them. */
  lemma {:induction false} IsUtf8Iff(us: seq<Unit>)
    ensures IsUtf8(Utf8All(us)) <==> forall i :: 0 <= i < |us| ==> !Surrogate(us[i])
  {
    if us != [] {
      var rest := us[1..];
      IsUtf8Iff(rest);
      UnitIsChar(us[0], Utf8All(rest));
      assert Utf8All(us)[|Utf8(us[0])|..] == Utf8All(rest);
      assert forall i :: 1 <= i < |us| ==> us[i] == rest[i - 1];
    }
  }

  /** How many units fit when `j` of `len` bytes are taken and one more is kept for the zero. */
  function Fitting(us: seq<Unit>, j: nat, len: nat): (n: nat)
    ensures n <= |us|
  {
    if us == [] || j + |Utf8(us[0])| >= len then 0 else 1 + Fitting(us[1..], j + |Utf8(us[0])|, len)
  }

  /** As many as possible fit, and never a part of one. */
  lemma {:induction false} FittingIsMost(us: seq<Unit>, j: nat, len: nat)
    requires j < len
    ensures var n := Fitting(us, j, len);
      && j + |Utf8All(us[..n])| < len
      && (n < |us| ==> j + |Utf8All(us[..n + 1])| >= len)
      && (n == |us| <==> j + |Utf8All(us)| < len)
  {
    var n := Fitting(us, j, len);
    if us == [] || j + |Utf8(us[0])| >= len {
      assert us != [] ==> us[..1][0] == us[0] && us[..1][1..] == [];
    } else {
      FittingIsMost(us[1..], j + |Utf8(us[0])|, len);
      assert us[..n][1..] == us[1..][..n - 1];
      assert n < |us| ==> us[..n + 1][1..] == us[1..][..n];
    }
  }

  /** The text that a label of `len` bytes gets. */
  function Encoded(src: seq<byte>, little: bool, len: nat): seq<byte> {
    var us := Units(src, 0, little);
    Utf8All(us[..Fitting(us, 0, len)])
  }

  /** The bytes of one unit, if they and a zero fit after the first `j` bytes. */
  method PutUnit(dest: array<byte>, j: nat, c: Unit) returns (fits: bool, next: nat)
    requires j < dest.Length
    modifies dest
    ensures fits == (j + |Utf8(c)| < dest.Length)
    ensures fits ==> next == j + |Utf8(c)| && dest[..next] == old(dest[..j]) + Utf8(c)
    ensures !fits ==> next == j && dest[..] == old(dest[..])
  {
    var len := dest.Length;
    fits, next := false, j;
    if c < 0x80 {
      if j + 1 >= len {
        return;
      }
      dest[j] := c;
      next := j + 1;
    } else if c < 0x800 {
      if j + 2 >= len {
        return;
      }
      dest[j] := 0xC0 + c / 0x40;
      dest[j + 1] := 0x80 + c % 0x40;
      next := j + 2;
    } else {
      if j + 3 >= len {
        return;
      }
      dest[j] := 0xE0 + c / 0x1000;
      dest[j + 1] := 0x80 + c / 0x40 % 0x40;
      dest[j + 2] := 0x80 + c % 0x40;
      next := j + 3;
    }
    fits := true;
    assert dest[j..next] == Utf8(c);
    assert dest[..next] == dest[..j] + dest[j..next];
  }

  /** `blkid_encode_to_utf8`. */
  method EncodeToUtf8(dest: array<byte>, src: seq<byte>, little: bool) returns (j: nat)
    requires dest.Length > 0
    modifies dest
    ensures j < dest.Length && dest[..j] == Encoded(src, little, dest.Length) && dest[j] == 0
  {
    hide Utf8, Utf8All, UnitAt;
    ghost var us := Units(src, 0, little);
    ghost var n := 0;
    NoUnits();
    j := 0;
    var i := 0;
    while i + 2 <= |src|
      invariant 0 <= i && j < dest.Length && n <= |us| && us[n..] == Units(src, i, little)
      invariant dest[..j] == Utf8All(us[..n]) && Fitting(us, 0, dest.Length) == n + Fitting(us[n..], j, dest.Length)
      decreases |src| - i
    {
      var c := UnitAt(src, i, little);
      if c == 0 {
        break;
      }
      assert us[n] == us[n..][0] == c && us[n..][1..] == us[n + 1..];
      OneMoreUnit(us, n);
      var fits;
      fits, j := PutUnit(dest, j, c);
      if !fits {
        break;
      }
      i, n := i + 2, n + 1;
    }
    assert dest[..j] == Utf8All(us[..n]);
    dest[j] := 0;
  }

  lemma NoUnits()
    ensures Utf8All([]) == []
  {
  }

  lemma {:induction false} OneMoreUnit(us: seq<Unit>, n: nat)
    requires n < |us|
    ensures Utf8All(us[..n + 1]) == Utf8All(us[..n]) + Utf8(us[n])
  {
    if n > 0 {
      OneMoreUnit(us[1..], n - 1);
      assert us[..n + 1][1..] == us[1..][..n] && us[..n][1..] == us[1..][..n - 1];
    } else {
      assert us[..1][1..] == [] && us[..0] == [];
    }
  }

  // ---------- white space ----------

  /** `isspace` in the C locale. */
  predicate Space(c: int) {
    c == ' ' as int || 9 <= c <= 13
  }

  function Trimmed<T(==)>(s: seq<T>, space: T -> bool): (r: seq<T>)
    ensures r <= s && (r != [] ==> !space(r[|r| - 1])) && forall i :: |r| <= i < |s| ==> space(s[i])
  {
    if s != [] && space(s[|s| - 1]) then Trimmed(s[..|s| - 1], space) else s
  }

  function TrimmedBytes(s: seq<byte>): seq<byte> {
    Trimmed(s, b => Space(b))
  }

  function TrimmedUnits(us: seq<Unit>): seq<Unit> {
    Trimmed(us, c => Space(c))
  }

  /** `blkid_rtrim_whitespace` on a text of length `len`; `at` is one more than the program's index, which
      wraps below zero and back. */
  method RtrimWhitespace(str: array<byte>, len: nat) returns (i: nat)
    requires len < str.Length && str[len] == 0 && 0 !in str[..len]
    modifies str
    ensures i <= len && str[..i] == TrimmedBytes(old(str[..len])) && str[i] == 0
    ensures forall k :: 0 <= k < str.Length && k != i ==> str[k] == old(str[k])
  {
    ghost var s := str[..len];
    var at: int := len;
    while at > 0 && Space(str[at - 1])
      invariant 0 <= at <= len
      invariant TrimmedBytes(s) == TrimmedBytes(s[..at])
    {
      assert s[..at][..at - 1] == s[..at - 1];
      at := at - 1;
    }
    assert s[..at] == str[..at];
    i := at;
    str[i] := 0;
  }

  lemma {:induction false} SpaceAlone(us: seq<Unit>)
    requires us != []
    ensures var s := Utf8All(us);
      && s != [] && (Space(s[|s| - 1]) <==> Space(us[|us| - 1]))
      && (Space(us[|us| - 1]) ==> s[..|s| - 1] == Utf8All(us[..|us| - 1]))
  {
    OneMoreUnit(us, |us| - 1);
    assert us[..|us| - 1 + 1] == us;
  }

  /** Trimming bytes never cuts into a character: it trims the same units. */
  lemma {:induction false} TrimsWholeUnits(us: seq<Unit>)
    ensures TrimmedBytes(Utf8All(us)) == Utf8All(TrimmedUnits(us))
  {
    hide Utf8All, Space;
    NoUnits();
    if us != [] {
      SpaceAlone(us);
      if Space(us[|us| - 1]) {
        TrimsWholeUnits(us[..|us| - 1]);
      }
    }
  }

  // ---------- the label ----------

  lemma {:induction false} NoZero(us: seq<Unit>)
    requires 0 !in us
    ensures 0 !in Utf8All(us)
  {
    if us != [] {
      NoZero(us[1..]);
    }
  }

  /** `blkid_probe_set_utf8label`. */
  method SetUtf8Label(dest: array<byte>, src: seq<byte>, little: bool) returns (len: nat)
    requires dest.Length > 0
    modifies dest
    ensures len < dest.Length && dest[..len] == TrimmedBytes(Encoded(src, little, dest.Length)) && dest[len] == 0
  {
    var n := EncodeToUtf8(dest, src, little);
    ghost var us := Units(src, 0, little);
    NoZero(us[..Fitting(us, 0, dest.Length)]);
    len := RtrimWhitespace(dest, n);
  }

  /** Big-endian text is little-endian text with the bytes of each unit exchanged. */
  lemma BigIsTurned(a: byte, b: byte)
    ensures UnitAt([a, b], 0, false) == UnitAt([b, a], 0, true) == 256 * a as int + b as int
  {
  }

  /** The label encodes the units of the source, as many as fit, without the white space at their end; it
      holds all of them exactly when their encoding is shorter than the label. It is well-formed UTF-8
      exactly when no half of a surrogate pair is left among them: a pair is not joined. */
  lemma LabelDecodes(src: seq<byte>, little: bool, len: nat)
    requires len > 0
    ensures var us := Units(src, 0, little);
      var n := Fitting(us, 0, len);
      var text := TrimmedBytes(Encoded(src, little, len));
      var kept := TrimmedUnits(us[..n]);
      && Decode(text) == Some(kept) && kept <= us[..n]
      && (kept != [] ==> kept[|kept| - 1] !in [9, 10, 11, 12, 13, 32])
      && (forall i :: |kept| <= i < n ==> us[i] in [9, 10, 11, 12, 13, 32])
      && (IsUtf8(text) <==> forall i :: 0 <= i < |kept| ==> !Surrogate(kept[i]))
      && (n == |us| <==> |Utf8All(us)| < len)
      && (n < |us| ==> |Utf8All(us[..n + 1])| >= len)
  {
    hide TrimmedBytes, IsUtf8, Decode, Utf8All;
    var us := Units(src, 0, little);
    var n := Fitting(us, 0, len);
    FittingIsMost(us, 0, len);
    TrimsWholeUnits(us[..n]);
    DecodeAll(TrimmedUnits(us[..n]));
    IsUtf8Iff(TrimmedUnits(us[..n]));
  }

  /** A character outside the first plane, U+1F600: the two halves of its pair are encoded one by one, and
      the label is not UTF-8. */
  lemma PairIsNotJoined(len: nat)
    requires len > 6
    ensures var text := TrimmedBytes(Encoded([0x3D, 0xD8, 0x00, 0xDE], true, len));
      text == [0xED, 0xA0, 0xBD, 0xED, 0xB8, 0x80] && !IsUtf8(text)
  {
    var src: seq<byte> := [0x3D, 0xD8, 0x00, 0xDE];
    var us := Units(src, 0, true);
    assert Units(src, 4, true) == [] && Units(src, 2, true) == [0xDE00] && us == [0xD83D, 0xDE00];
    assert us[1..] == [0xDE00] && us[1..][1..] == [];
    assert Utf8All([]) == [] && Utf8All(us[1..]) == [0xED, 0xB8, 0x80];
    assert Fitting(us[1..], 3, len) == 1 && Fitting(us, 0, len) == 2 && us[..2] == us;
    var text: seq<byte> := [0xED, 0xA0, 0xBD, 0xED, 0xB8, 0x80];
    assert Encoded(src, true, len) == text;
    assert TrimmedBytes(text) == text;
    assert CharLength(text) == 0;
  }
}
