/** PPTP data packets: enhanced GRE framing (section 4.1 of RFC 2637) of PPP frames whose
    address/control and protocol fields may be compressed (sections 6.5 and 6.6 of RFC 1661). */
module PptpWire {
  import opened Bytes

  const PPP_ALLSTATIONS: byte := 0xff
  const PPP_UI: byte := 0x03
  const PPP_LCP := 0xc021
  const LCP_ECHOREQ: byte := 0x09
  const LCP_ECHOREP: byte := 0x0a

  const GRE_VER: byte := 0x1
  const GRE_PROTO: u16 := 0x880b
  const FLAG_C := 0x80
  const FLAG_R := 0x40
  const FLAG_K := 0x20
  const FLAG_S := 0x10
  const FLAG_A := 0x80

  type Frame = seq<byte>

  /** The two bits of `ppp_flags` that transmission looks at: SC_COMP_PROT and SC_COMP_AC. */
  datatype Flags = Flags(compProt: bool, compAc: bool)

  // ---------- sending side ----------

  /** The bytes transmission reads exist: the protocol field, and for LCP its code. */
  predicate Sendable(f: Frame) {
    |f| >= 2 && (U16At(f, 0) == PPP_LCP ==> |f| >= 3)
  }

  predicate IsLcpControl(f: Frame)
    requires Sendable(f)
  {
    U16At(f, 0) == PPP_LCP && 1 <= f[2] <= 7
  }

  predicate IsLcpEcho(f: Frame) {
    |f| >= 3 && U16At(f, 0) == PPP_LCP && f[2] in {LCP_ECHOREQ, LCP_ECHOREP}
  }

  /** The frame after protocol-field compression. */
  function Compressed(f: Frame, fl: Flags): (r: seq<byte>)
    requires Sendable(f)
  {
    if fl.compProt && f[0] == 0 && !IsLcpControl(f) then f[1..] else f
  }

  /** What follows the GRE header. */
  function Payload(f: Frame, fl: Flags): (r: seq<byte>)
    requires Sendable(f)
  {
    if !fl.compAc || IsLcpControl(f) then [PPP_ALLSTATIONS, PPP_UI] + Compressed(f, fl) else Compressed(f, fl)
  }

  /** One data packet as it was put on the network. */
  datatype Datagram = Datagram(callId: u16, seqno: u32, ack: Option<u32>, frame: Frame, flags: Flags)
  {
    predicate Valid() {
      Sendable(frame)
    }

    function Header(): (h: seq<byte>)
      requires Valid()
      ensures |h| == if ack.Some? then 16 else 12
    {
      [FLAG_K + FLAG_S, if ack.Some? then GRE_VER + FLAG_A else GRE_VER] + Be16(GRE_PROTO)
      + Be16(|Payload(frame, flags)| % 0x1_0000) + Be16(callId) + Be32(seqno)
      + if ack.Some? then Be32(ack.value) else []
    }

    function Octets(): (p: seq<byte>)
      requires Valid()
      ensures HeaderPresent(p)
    {
      var h := Header();
      assert h[0] == FLAG_K + FLAG_S && h[1] == if ack.Some? then GRE_VER + FLAG_A else GRE_VER;
      h + Payload(frame, flags)
    }
  }

  // ---------- receiving side ----------

  predicate HasSeq(p: seq<byte>)
    requires |p| >= 2
  {
    Bit(p[0], FLAG_S)
  }

  predicate HasAck(p: seq<byte>)
    requires |p| >= 2
  {
    Bit(p[1], FLAG_A)
  }

  function HeaderSize(p: seq<byte>): (n: nat)
    requires |p| >= 2
  {
    if HasAck(p) then 16 else 12
  }

  /** The header bytes that reception reads without a check of its own are present. */
  predicate HeaderPresent(p: seq<byte>) {
    && |p| >= 8
    && (HasAck(p) || HasSeq(p) ==> |p| >= 12)
    && (HasSeq(p) ==> |p| >= HeaderSize(p))
  }

  /** The header check, and the call the packet belongs to. */
  predicate HeaderAccepted(p: seq<byte>)
    requires |p| >= 8
  {
    && p[1] % 0x80 == GRE_VER
    && U16At(p, 2) == GRE_PROTO
    && !Bit(p[0], FLAG_C)
    && !Bit(p[0], FLAG_R)
    && Bit(p[0], FLAG_K)
    && p[0] % 0x10 == 0
  }

  function CallId(p: seq<byte>): u16
    requires |p| >= 8
  {
    U16At(p, 6)
  }

  function SeqOf(p: seq<byte>): u32
    requires |p| >= 12
  {
    U32At(p, 8)
  }

  /** The acknowledgement number sits in the sequence field when no sequence number is present. */
  function AckOf(p: seq<byte>): u32
    requires |p| >= 8 && HeaderPresent(p) && HasAck(p)
  {
    if HasSeq(p) then U32At(p, 12) else U32At(p, 8)
  }

  /** `skb->len - headersize < payload_len`. */
  predicate Truncated(p: seq<byte>)
    requires HeaderPresent(p) && HasSeq(p)
  {
    |p| - HeaderSize(p) < U16At(p, 4)
  }

  /** The first bytes of a payload are inspected before its length is known to reach that far; what
      lies behind the packet in its buffer is `slack`. */
  const SLACK := 5

  function Peek(payload: seq<byte>, slack: seq<byte>, i: nat): byte
    requires i < SLACK <= |slack|
  {
    if i < |payload| then payload[i] else slack[i - |payload|]
  }

  predicate StartsUncompressed(payload: seq<byte>, slack: seq<byte>)
    requires SLACK <= |slack|
  {
    Peek(payload, slack, 0) == PPP_ALLSTATIONS && Peek(payload, slack, 1) == PPP_UI
  }

  /** An old packet is let through only when this holds. */
  predicate LooksLikeEcho(payload: seq<byte>, slack: seq<byte>)
    requires SLACK <= |slack|
  {
    && StartsUncompressed(payload, slack)
    && Peek(payload, slack, 2) * 0x100 + Peek(payload, slack, 3) == PPP_LCP
    && Peek(payload, slack, 4) in {LCP_ECHOREQ, LCP_ECHOREP}
  }

  /** Removal of the address/control field and expansion of a compressed protocol field; nothing
      when the packet is too short to hold anything after an address/control field. */
  function Unframe(payload: seq<byte>, slack: seq<byte>): (r: Option<Frame>)
    requires SLACK <= |slack|
  {
    if StartsUncompressed(payload, slack) && |payload| < 3 then None
    else
      var body := if StartsUncompressed(payload, slack) then payload[2..] else payload;
      if Peek(body, slack, 0) % 2 == 1 then Some([0] + body) else Some(body)
  }

  // ---------- round trip ----------

  /** What a sender has to respect, in terms of the frame and its flags alone (`behind` is the byte
      behind a one-byte payload). It is the rule of section 2 of RFC 1661 for protocol numbers,
      minus 0x00ff, as far as the flags in use make it matter. */
  predicate Restorable(f: Frame, fl: Flags, behind: byte)
    requires Sendable(f)
  {
    || IsLcpControl(f)
    || if fl.compProt && f[0] == 0 then
         f[1] % 2 == 1 && !(fl.compAc && f[1] == PPP_ALLSTATIONS && (if |f| > 2 then f[2] else behind) == PPP_UI)
       else
         f[0] % 2 == 0
  }

  /** Section 2 of RFC 1661, without the one number that compresses to the all-stations address. */
  predicate WellFormed(f: Frame) {
    Sendable(f) && f[0] % 2 == 0 && f[1] % 2 == 1 && !(f[0] == 0 && f[1] == 0xff)
  }

  /** The payload of a frame gives that frame back exactly when the frame is restorable. */
  lemma PayloadRoundTrip(f: Frame, fl: Flags, slack: seq<byte>)
    requires Sendable(f) && SLACK <= |slack|
    ensures Unframe(Payload(f, fl), slack) == Some(f) <==> Restorable(f, fl, slack[0])
  {
    var payload := Payload(f, fl);
    var body := Compressed(f, fl);
    if !fl.compAc || IsLcpControl(f) {
      assert payload[2..] == body;
    }
    if body != f {
      assert [0] + body == f <==> f[0] == 0;
      assert |body| == |f| - 1;
    }
    var r := Unframe(payload, slack);
    if r.Some? && r.value == f {
      assert |r.value| == |f|;
    }
  }

  lemma WellFormedIsRestorable(f: Frame, fl: Flags, behind: byte)
    requires WellFormed(f)
    ensures Restorable(f, fl, behind)
  {
  }

  /** Every header field is read back as it was written, the header passes the check, the packet is
      never taken for a truncated one, and the payload is what remains. */
  lemma HeaderRoundTrip(d: Datagram)
    requires d.Valid()
    ensures
      var p := d.Octets();
      && HeaderPresent(p) && HeaderAccepted(p) && HasSeq(p) && (HasAck(p) <==> d.ack.Some?)
      && CallId(p) == d.callId && SeqOf(p) == d.seqno
      && (d.ack.Some? ==> AckOf(p) == d.ack.value)
      && !Truncated(p)
      && p[HeaderSize(p)..] == Payload(d.frame, d.flags)
  {
    var p, h := d.Octets(), d.Header();
    assert p[0] == h[0] && p[1] == h[1];
    assert forall i :: 0 <= i < |h| ==> p[i] == h[i];
    var id := Be16(d.callId);
    assert h[6] == id[0] && h[7] == id[1];
    var n := Be32(d.seqno);
    assert h[8] == n[0] && h[9] == n[1] && h[10] == n[2] && h[11] == n[3];
    Be32RoundTrip(d.seqno);
    if d.ack.Some? {
      var a := Be32(d.ack.value);
      assert h[12] == a[0] && h[13] == a[1] && h[14] == a[2] && h[15] == a[3];
      Be32RoundTrip(d.ack.value);
    }
    assert |p| - HeaderSize(p) == |Payload(d.frame, d.flags)|;
  }

  /** A packet that carries a well-formed frame and is let through although it is old carries an LCP
      echo. */
  lemma OldPacketsAreEchoes(f: Frame, fl: Flags, slack: seq<byte>)
    requires WellFormed(f) && SLACK <= |slack|
    requires LooksLikeEcho(Payload(f, fl), slack)
    ensures IsLcpEcho(f)
  {
    var payload := Payload(f, fl);
    if !fl.compAc || IsLcpControl(f) {
      assert payload[2..] == Compressed(f, fl);
    }
  }
}
