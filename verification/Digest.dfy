/** The digest of a file and its comparison with an announced one. */
module Digest {
  import opened Bytes
  import Md5Fold
  import Md5Stream

  function Octet(b: byte): bv8 {
    b as bv8
  }

  function Value(b: bv8): byte {
    b as int
  }

  function Octets(s: seq<byte>): (r: seq<bv8>)
    ensures |r| == |s|
  {
    if s == [] then [] else Octets(s[..|s| - 1]) + [Octet(s[|s| - 1])]
  }

  /** Two upper-case hexadecimal digits for each byte. */
  function Hex(d: seq<bv8>): (r: seq<byte>)
    ensures |r| == 2 * |d|
  {
    if d == [] then [] else
      var v := Value(d[|d| - 1]);
      Hex(d[..|d| - 1]) + [HexDigit(v / 16), HexDigit(v % 16)]
  }

  function Lower(c: byte): byte {
    if 'A' as int <= c <= 'Z' as int then c + 32 else c
  }

  /** `strncasecmp(a, b, n) == 0`, from position `i` on. */
  predicate SameText(a: seq<byte>, b: seq<byte>, i: nat, n: nat)
    requires i <= n <= |a| && n <= |b|
    decreases n - i
  {
    i == n || (Lower(a[i]) == Lower(b[i]) && (a[i] == 0 || SameText(a, b, i + 1, n)))
  }

  /** `md5` spells the digest `d` in hexadecimal digits of either case. */
  ghost predicate Spells(md5: seq<byte>, d: seq<bv8>) {
    2 * |d| <= |md5| && forall k :: 0 <= k < 2 * |d| ==> HexValue(md5[k]) == Some(Nibble(d, k))
  }

  /** The k-th half of a byte, high halves first. */
  function Nibble(d: seq<bv8>, k: int): (v: int)
    requires 0 <= k < 2 * |d|
    ensures 0 <= v < 16
  {
    if k % 2 == 0 then Value(d[k / 2]) / 16 else Value(d[k / 2]) % 16
  }

  /** The bytes that `cc_md5` digests, when it does not refuse the file. */
  function Hashed(content: seq<byte>): seq<byte>
    requires Md5Stream.AsInt(|content|) >= 0
  {
    content[..Md5Stream.Hashed(|content|)]
  }

  predicate Matches(md5: seq<byte>, content: seq<byte>)
    requires |md5| == 33
  {
    Md5Stream.AsInt(|content|) >= 0 && SameText(md5, Hex(Md5Fold.Md5(Octets(Hashed(content)))), 0, 32)
  }

  lemma DigitSame(c: byte, v: int)
    requires 0 <= v < 16
    ensures Lower(c) == Lower(HexDigit(v)) <==> HexValue(c) == Some(v)
  {
  }

  lemma {:induction false} HexAt(d: seq<bv8>, k: nat)
    requires k < 2 * |d|
    ensures Hex(d)[k] == HexDigit(Nibble(d, k))
  {
    if k < 2 * (|d| - 1) {
      HexAt(d[..|d| - 1], k);
    }
  }

  lemma {:induction false} SameTextIff(a: seq<byte>, b: seq<byte>, i: nat, n: nat)
    requires i <= n <= |a| && n <= |b| && forall k :: 0 <= k < n ==> b[k] != 0
    ensures SameText(a, b, i, n) <==> forall k :: i <= k < n ==> Lower(a[k]) == Lower(b[k])
    decreases n - i
  {
    if i < n {
      SameTextIff(a, b, i + 1, n);
    }
  }

  /** The comparison with the printed digest accepts exactly the spellings of the digest. */
  lemma ComparesSpellings(md5: seq<byte>, d: seq<bv8>)
    requires |md5| == 33 && |d| == 16
    ensures SameText(md5, Hex(d), 0, 32) <==> Spells(md5, d)
  {
    hide Hex, Lower, HexDigit, HexValue, Nibble;
    var h := Hex(d);
    forall k | 0 <= k < 32
      ensures h[k] != 0 && (Lower(md5[k]) == Lower(h[k]) <==> HexValue(md5[k]) == Some(Nibble(d, k)))
    {
      HexAt(d, k);
      DigitSame(md5[k], Nibble(d, k));
      DigitNotZero(Nibble(d, k));
    }
    SameTextIff(md5, h, 0, 32);
  }

  lemma DigitNotZero(v: int)
    requires 0 <= v < 16
    ensures HexDigit(v) != 0
  {
  }

  lemma ValueInjective(a: bv8, b: bv8)
    requires Value(a) == Value(b)
    ensures a == b
  {
  }

  /** No text spells two digests. */
  lemma SpellsOneDigest(md5: seq<byte>, d: seq<bv8>, e: seq<bv8>)
    requires |d| == |e| && Spells(md5, d) && Spells(md5, e)
    ensures d == e
  {
    hide Value, HexValue;
    forall i | 0 <= i < |d|
      ensures d[i] == e[i]
    {
      assert Nibble(d, 2 * i) == Nibble(e, 2 * i) && Nibble(d, 2 * i + 1) == Nibble(e, 2 * i + 1);
      ValueInjective(d[i], e[i]);
    }
  }

  /** A file of less than 2 GiB matches exactly when the announced text spells the digest of all of it. */
  lemma MatchesIff(md5: seq<byte>, content: seq<byte>)
    requires |md5| == 33 && |content| < 0x8000_0000
    ensures Matches(md5, content) <==> Spells(md5, Md5Fold.Md5(Octets(content)))
  {
    hide Md5Fold.Md5, Spells, SameText, Hex;
    Md5Stream.WholeFileDigestedIff(|content|);
    assert content[..|content|] == content;
    ComparesSpellings(md5, Md5Fold.Md5(Octets(content)));
  }

  lemma {:induction false} OctetsPrefix(s: seq<byte>, n: nat)
    requires n <= |s|
    ensures Octets(s[..n]) == Octets(s)[..n]
  {
    if n < |s| {
      OctetsPrefix(s[..|s| - 1], n);
      assert s[..|s| - 1][..n] == s[..n];
    } else {
      assert s[..n] == s;
    }
  }

  /** The digest part of `cp_sync_over` on a file that can be read: digest it, print the digest, compare. */
  method MatchesFile(md5: seq<byte>, content: seq<byte>) returns (ok: bool)
    requires |md5| == 33
    ensures ok <==> Matches(md5, content)
  {
    hide Md5Fold.Md5, Octets;
    var digested, digest := Md5Stream.Md5Sum(Octets(content), true, |content|);
    if !digested {
      return false;
    }
    OctetsPrefix(content, Md5Stream.Hashed(|content|));
    var str: seq<byte> := [];
    for i := 0 to 16
      invariant |digest| == 16 && str == Hex(digest[..i])
    {
      assert digest[..i + 1][..i] == digest[..i];
      var v := Value(digest[i]);
      str := str + [HexDigit(v / 16), HexDigit(v % 16)];
    }
    assert digest[..16] == digest;
    ok := SameText(md5, str, 0, 32);
  }
}
