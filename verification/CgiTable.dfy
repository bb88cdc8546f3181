/** The table of CGI requests that the cloud client has passed to the local web server and whose replies
    are pending. */
module CgiTable {
  import opened Bytes

  const CGI_MAX := 30
  const TIMEOUT := 3 * 60

  /** `id` is the position of the request among all well-formed ones; the program has no such field. */
  datatype Entry = Entry(id: nat, sock: int, time: int, cgi: seq<byte>, userid: u32)

  datatype Text = Forwarded(msg: seq<byte>) | Error(errno: int, cmd: seq<byte>)

  datatype Reply = Reply(id: nat, userid: u32, text: Text)

  /** The client between two turns of its loop. `pending` is the list from its head on, `number` the
      one-byte counter; the other fields record the history. */
  datatype State = State(
    pending: seq<Entry>, number: byte, attempts: nat,
    requests: seq<u32>, replies: seq<Reply>, discarded: seq<nat>, lost: seq<nat>)

  function Start(): State {
    State([], 0, 0, [], [], [], [])
  }

  /** What a look at one pending request finds: the uptime, whether its socket is readable, and the
      message of the web server if a complete one comes. */
  datatype Look = Look(now: int, ready: bool, response: Option<seq<byte>>)

  /** `sock` is the connection to the web server on which the request was sent, if that worked. */
  datatype Event =
    | Transfer(data: seq<byte>, sock: Option<int>, now: int)
    | Poll(looks: seq<Look>)
    | Relink

  // ---------- the steps ----------

  /** `cc_transfer_ack`; the k-th message to the server is sent when `line(k)`. */
  function Ack(line: nat -> bool, s: State, r: Reply): State {
    s.(attempts := s.attempts + 1, replies := if line(s.attempts) then s.replies + [r] else s.replies)
  }

  function Without<T>(s: seq<T>, j: nat): seq<T>
    requires j < |s|
  {
    s[..j] + s[j + 1..]
  }

  /** `cc_del_cgi` and the decrement of the counter. */
  function Drop(s: State, j: nat): State
    requires j < |s.pending|
  {
    s.(pending := Without(s.pending, j), number := (s.number + 255) % 256)
  }

  /** A reply that could not be sent is not sent again. */
  function Noted(s: State, id: nat, sent: bool): State {
    if sent then s else s.(lost := s.lost + [id])
  }

  predicate Late(e: Entry, look: Look) {
    e.time + TIMEOUT < look.now
  }

  /** The body of the loop of `cc_check_cgi` for the entry at `j`. */
  function Handle(line: nat -> bool, s: State, j: nat, look: Look): (r: State)
    requires j < |s.pending|
    ensures r.pending == if Late(s.pending[j], look) || look.ready then Without(s.pending, j) else s.pending
  {
    var e := s.pending[j];
    if Late(e, look) then
      Noted(Drop(Ack(line, s, Reply(e.id, e.userid, Error(104, e.cgi))), j), e.id, line(s.attempts))
    else if !look.ready then s
    else if look.response.Some? && line(s.attempts) then
      Drop(Ack(line, s, Reply(e.id, e.userid, Forwarded(look.response.value))), j)
    else
      var t := if look.response.Some? then Ack(line, s, Reply(e.id, e.userid, Forwarded(look.response.value))) else s;
      Noted(Drop(Ack(line, t, Reply(e.id, e.userid, Error(102, e.cgi))), j), e.id, line(t.attempts))
  }

  function LookAt(looks: seq<Look>, i: nat): Look {
    if i < |looks| then looks[i] else Look(0, false, None)
  }

  /** `cc_check_cgi` after its first n entries. */
  function Polled(line: nat -> bool, s: State, looks: seq<Look>, n: nat): (r: State)
    requires n <= |s.pending|
    ensures |s.pending| - n <= |r.pending| <= |s.pending|
  {
    if n == 0 then s
    else
      var p := Polled(line, s, looks, n - 1);
      Handle(line, p, |p.pending| - (|s.pending| - (n - 1)), LookAt(looks, n - 1))
  }

  /** `cc_transfer`: the length fields must agree with the message, and the table have room. */
  predicate WellFormed(data: seq<byte>) {
    |data| >= 14 && U16At(data, 12) + 14 == |data|
  }

  function Transferred(line: nat -> bool, s: State, data: seq<byte>, sock: Option<int>, now: int): State {
    if !WellFormed(data) then s
    else
      var id, userid, cgi := |s.requests|, U32At(data, 8), CString(data[14..]);
      var t := s.(requests := s.requests + [userid]);
      if s.number as int > CGI_MAX then
        Noted(Ack(line, t, Reply(id, userid, Error(103, cgi))), id, line(s.attempts))
      else if sock.None? then
        Noted(Ack(line, t, Reply(id, userid, Error(101, cgi))), id, line(s.attempts))
      else
        t.(pending := [Entry(id, sock.value, now, cgi, userid)] + s.pending, number := (s.number + 1) % 256)
  }

  function Ids(es: seq<Entry>): seq<nat> {
    seq(|es|, i requires 0 <= i < |es| => es[i].id)
  }

  /** `cc_free_cgi`, called when the connection is made anew. */
  function Freed(s: State): State {
    s.(pending := [], number := (s.number + 255 * |s.pending|) % 256, discarded := s.discarded + Ids(s.pending))
  }

  function Step(line: nat -> bool, s: State, e: Event): State {
    match e
    case Transfer(data, sock, now) => Transferred(line, s, data, sock, now)
    case Poll(looks) => Polled(line, s, looks, |s.pending|)
    case Relink => Freed(s)
  }

  function Run(line: nat -> bool, events: seq<Event>): State {
    if events == [] then Start() else Step(line, Run(line, events[..|events| - 1]), events[|events| - 1])
  }

  // ---------- conservation ----------

  function ReplyIds(rs: seq<Reply>): seq<nat> {
    seq(|rs|, i requires 0 <= i < |rs| => rs[i].id)
  }

  /** Everything a request can have become. */
  ghost function Fates(replies: seq<Reply>, pending: seq<Entry>, discarded: seq<nat>, lost: seq<nat>): multiset<nat> {
    multiset(ReplyIds(replies)) + multiset(Ids(pending)) + multiset(discarded) + multiset(lost)
  }

  function UpTo(n: nat): seq<nat> {
    seq(n, i => i)
  }

  ghost predicate Owners(requests: seq<u32>, pending: seq<Entry>, replies: seq<Reply>) {
    && (forall e :: e in pending ==> e.id < |requests| && requests[e.id] == e.userid)
    && (forall r :: r in replies ==> r.id < |requests| && requests[r.id] == r.userid)
  }

  ghost predicate Inv(s: State) {
    && s.number as int == |s.pending| <= CGI_MAX + 1
    && Fates(s.replies, s.pending, s.discarded, s.lost) == multiset(UpTo(|s.requests|))
    && Owners(s.requests, s.pending, s.replies)
  }

  lemma WithoutIds(es: seq<Entry>, j: nat)
    requires j < |es|
    ensures multiset(Ids(es)) == multiset(Ids(Without(es, j))) + multiset{es[j].id}
    ensures forall e :: e in Without(es, j) ==> e in es
  {
    assert Ids(es) == Ids(es)[..j] + [es[j].id] + Ids(es)[j + 1..];
    assert Ids(Without(es, j)) == Ids(es)[..j] + Ids(es)[j + 1..];
  }

  lemma SettleFates(s: State, j: nat, r: Reply)
    requires j < |s.pending| && Inv(s) && r.id == s.pending[j].id && r.userid == s.pending[j].userid
    ensures Fates(s.replies + [r], Without(s.pending, j), s.discarded, s.lost) == multiset(UpTo(|s.requests|))
    ensures Fates(s.replies, Without(s.pending, j), s.discarded, s.lost + [r.id]) == multiset(UpTo(|s.requests|))
  {
    hide Ids, UpTo, Without, Owners;
    WithoutIds(s.pending, j);
    assert ReplyIds(s.replies + [r]) == ReplyIds(s.replies) + [r.id];
  }

  lemma SettleOwners(s: State, j: nat, r: Reply)
    requires j < |s.pending| && Inv(s) && r.id == s.pending[j].id && r.userid == s.pending[j].userid
    ensures Owners(s.requests, Without(s.pending, j), s.replies)
    ensures Owners(s.requests, Without(s.pending, j), s.replies + [r])
  {
    hide Fates, UpTo;
    assert s.pending[j] in s.pending;
    assert forall e :: e in Without(s.pending, j) ==> e in s.pending;
  }

  /** One pending request is dropped with one reply, or with none if the line fails. */
  lemma SettleKeepsInv(line: nat -> bool, s: State, j: nat, text: Text)
    requires j < |s.pending| && Inv(s)
    ensures var e := s.pending[j];
      Inv(Noted(Drop(Ack(line, s, Reply(e.id, e.userid, text)), j), e.id, line(s.attempts)))
  {
    hide Fates, Owners, UpTo, Without;
    SettleFates(s, j, Reply(s.pending[j].id, s.pending[j].userid, text));
    SettleOwners(s, j, Reply(s.pending[j].id, s.pending[j].userid, text));
    WithoutLength(s.pending, j);
  }

  lemma WithoutLength<T>(s: seq<T>, j: nat)
    requires j < |s|
    ensures |Without(s, j)| == |s| - 1
  {
  }

  lemma InvIgnoresAttempts(s: State)
    requires Inv(s)
    ensures Inv(s.(attempts := s.attempts + 1))
  {
  }

  lemma HandleKeepsInv(line: nat -> bool, s: State, j: nat, look: Look)
    requires j < |s.pending| && Inv(s)
    ensures Inv(Handle(line, s, j, look))
    ensures (forall k :: line(k)) ==> Handle(line, s, j, look).lost == s.lost
  {
    hide Inv, Without, Late;
    var e := s.pending[j];
    InvIgnoresAttempts(s);
    SettleKeepsInv(line, s, j, Error(104, e.cgi));
    if look.response.Some? {
      SettleKeepsInv(line, s, j, Forwarded(look.response.value));
      if !line(s.attempts) {
        SettleKeepsInv(line, s.(attempts := s.attempts + 1), j, Error(102, e.cgi));
      }
    } else {
      SettleKeepsInv(line, s, j, Error(102, e.cgi));
    }
  }

  lemma {:induction false} PollKeepsInv(line: nat -> bool, s: State, looks: seq<Look>, n: nat)
    requires n <= |s.pending| && Inv(s)
    ensures Inv(Polled(line, s, looks, n))
    ensures (forall k :: line(k)) ==> Polled(line, s, looks, n).lost == s.lost
  {
    hide Inv, Handle, Polled, Without, Late;
    if n == 0 {
      PolledNext(line, s, looks, 0);
    } else {
      PollKeepsInv(line, s, looks, n - 1);
      PolledNext(line, s, looks, n - 1);
      var p := Polled(line, s, looks, n - 1);
      HandleKeepsInv(line, p, |p.pending| - (|s.pending| - (n - 1)), LookAt(looks, n - 1));
    }
  }

  lemma UpToNext(n: nat)
    ensures multiset(UpTo(n + 1)) == multiset(UpTo(n)) + multiset{n}
  {
    assert UpTo(n + 1) == UpTo(n) + [n];
  }

  lemma RefuseFates(s: State, r: Reply)
    requires Inv(s) && r.id == |s.requests|
    ensures Fates(s.replies + [r], s.pending, s.discarded, s.lost) == multiset(UpTo(r.id + 1))
    ensures Fates(s.replies, s.pending, s.discarded, s.lost + [r.id]) == multiset(UpTo(r.id + 1))
  {
    hide Ids, UpTo, Owners;
    UpToNext(r.id);
    assert ReplyIds(s.replies + [r]) == ReplyIds(s.replies) + [r.id];
  }

  lemma RefuseKeepsInv(line: nat -> bool, s: State, userid: u32, text: Text)
    requires Inv(s)
    ensures var id := |s.requests|;
      Inv(Noted(Ack(line, s.(requests := s.requests + [userid]), Reply(id, userid, text)), id, line(s.attempts)))
  {
    hide Fates, UpTo, Owners;
    RefuseFates(s, Reply(|s.requests|, userid, text));
    RefuseOwners(s, userid, text);
  }

  lemma RefuseOwners(s: State, userid: u32, text: Text)
    requires Owners(s.requests, s.pending, s.replies)
    ensures Owners(s.requests + [userid], s.pending, s.replies)
    ensures Owners(s.requests + [userid], s.pending, s.replies + [Reply(|s.requests|, userid, text)])
  {
  }

  lemma AddEntry(s: State, userid: u32, e: Entry)
    requires Inv(s) && e.id == |s.requests| && e.userid == userid
    ensures Owners(s.requests + [userid], [e] + s.pending, s.replies)
    ensures Fates(s.replies, [e] + s.pending, s.discarded, s.lost) == multiset(UpTo(|s.requests| + 1))
  {
    hide ReplyIds, UpTo;
    UpToNext(|s.requests|);
    assert Ids([e] + s.pending) == [e.id] + Ids(s.pending);
  }

  lemma AddKeepsInv(s: State, sock: int, now: int, cgi: seq<byte>, userid: u32)
    requires Inv(s) && |s.pending| <= CGI_MAX
    ensures Inv(s.(requests := s.requests + [userid], number := (s.number + 1) % 256,
                   pending := [Entry(|s.requests|, sock, now, cgi, userid)] + s.pending))
  {
    hide Owners, Fates, UpTo;
    AddEntry(s, userid, Entry(|s.requests|, sock, now, cgi, userid));
  }

  lemma TransferKeepsInv(line: nat -> bool, s: State, data: seq<byte>, sock: Option<int>, now: int)
    requires Inv(s)
    ensures var r := Transferred(line, s, data, sock, now); Inv(r) && ((forall k :: line(k)) ==> r.lost == s.lost)
  {
    hide U32At, CString, Fates, Owners;
    if WellFormed(data) {
      var userid, cgi := U32At(data, 8), CString(data[14..]);
      RefuseKeepsInv(line, s, userid, Error(103, cgi));
      RefuseKeepsInv(line, s, userid, Error(101, cgi));
      if sock.Some? && s.number as int <= CGI_MAX {
        AddKeepsInv(s, sock.value, now, cgi, userid);
      }
    }
  }

  lemma FreeKeepsInv(s: State)
    requires Inv(s)
    ensures Inv(Freed(s))
  {
    assert (s.number + 255 * |s.pending|) % 256 == 0;
    assert multiset(s.discarded + Ids(s.pending)) == multiset(s.discarded) + multiset(Ids(s.pending));
  }

  /** In every run, each well-formed request is exactly one of: replied to (once, to its own user),
      pending, discarded by a new connection, or lost because the line did not take its reply; nothing
      is lost while the line takes everything. The counter is the length of the list, 31 at most. */
  lemma {:induction false} RunKeepsInv(line: nat -> bool, events: seq<Event>)
    ensures Inv(Run(line, events))
    ensures (forall k :: line(k)) ==> Run(line, events).lost == []
  {
    hide Inv, Polled, Transferred, Freed;
    if events == [] {
      StartInv();
    } else {
      var s, e := Run(line, events[..|events| - 1]), events[|events| - 1];
      RunKeepsInv(line, events[..|events| - 1]);
      match e
      case Transfer(data, sock, now) => TransferKeepsInv(line, s, data, sock, now);
      case Poll(looks) => PollKeepsInv(line, s, looks, |s.pending|);
      case Relink => FreeKeepsInv(s); FreedLost(s);
    }
  }

  lemma StartInv()
    ensures Inv(Start())
  {
  }

  lemma FreedLost(s: State)
    ensures Freed(s).lost == s.lost
  {
  }

  lemma UpToOnce(n: nat, x: nat)
    ensures multiset(UpTo(n))[x] <= 1
  {
    if n > 0 {
      UpToNext(n - 1);
      UpToOnce(n - 1, x);
    }
    assert n > 0 || UpTo(n) == [];
    InUpTo(n, x);
  }

  lemma InUpTo(n: nat, x: nat)
    ensures x in multiset(UpTo(n)) <==> x < n
  {
    if x < n {
      assert UpTo(n)[x] == x;
    }
  }

  lemma {:induction false} TwiceCounted(s: seq<nat>, i: nat, j: nat)
    requires i < j < |s| && s[i] == s[j]
    ensures multiset(s)[s[i]] >= 2
  {
    assert s == s[..i] + [s[i]] + s[i + 1..j] + [s[j]] + s[j + 1..];
  }

  /** No request gets two replies, and none that is replied to is still pending. */
  lemma OneReplyEach(line: nat -> bool, events: seq<Event>)
    ensures var s := Run(line, events);
      && (forall i, j :: 0 <= i < j < |s.replies| ==> s.replies[i].id != s.replies[j].id)
      && (forall i, j :: 0 <= i < |s.replies| && 0 <= j < |s.pending| ==> s.replies[i].id != s.pending[j].id)
  {
    hide Run;
    RunKeepsInv(line, events);
    var s := Run(line, events);
    var rs, ps := ReplyIds(s.replies), Ids(s.pending);
    forall i, j | 0 <= i < j < |s.replies|
      ensures s.replies[i].id != s.replies[j].id
    {
      UpToOnce(|s.requests|, rs[i]);
      if rs[i] == rs[j] {
        TwiceCounted(rs, i, j);
      }
    }
    forall i, j | 0 <= i < |s.replies| && 0 <= j < |s.pending|
      ensures s.replies[i].id != s.pending[j].id
    {
      UpToOnce(|s.requests|, rs[i]);
      assert rs[i] in multiset(rs) && ps[j] in multiset(ps);
    }
  }

  // ---------- what one look at the table does ----------

  /** The entries among the first n that stay: neither late nor readable. */
  function Kept(s: State, looks: seq<Look>, n: nat): seq<Entry>
    requires n <= |s.pending|
  {
    if n == 0 then []
    else
      var e, look := s.pending[n - 1], LookAt(looks, n - 1);
      Kept(s, looks, n - 1) + if e.time + 180 < look.now || look.ready then [] else [e]
  }

  /** The replies owed to the first n entries, in the order of the list. */
  function Owed(s: State, looks: seq<Look>, n: nat): seq<Reply>
    requires n <= |s.pending|
  {
    if n == 0 then []
    else
      var e, look := s.pending[n - 1], LookAt(looks, n - 1);
      Owed(s, looks, n - 1) +
      if e.time + 180 < look.now then [Reply(e.id, e.userid, Error(104, e.cgi))]
      else if !look.ready then []
      else if look.response.Some? then [Reply(e.id, e.userid, Forwarded(look.response.value))]
      else [Reply(e.id, e.userid, Error(102, e.cgi))]
  }

  lemma KeptNext<T>(kept: seq<T>, rest: seq<T>, drop: bool)
    requires rest != []
    ensures (if drop then Without(kept + rest, |kept|) else kept + rest)
         == kept + (if drop then [] else [rest[0]]) + rest[1..]
  {
  }

  /** The list after the first n entries were looked at. */
  function Remaining(s: State, looks: seq<Look>, n: nat): seq<Entry>
    requires n <= |s.pending|
  {
    Kept(s, looks, n) + s.pending[n..]
  }

  lemma OneKept(line: nat -> bool, s: State, p: State, looks: seq<Look>, n: nat)
    requires 0 < n <= |s.pending| && p.pending == Remaining(s, looks, n - 1)
    ensures Handle(line, p, |p.pending| - (|s.pending| - (n - 1)), LookAt(looks, n - 1)).pending
         == Remaining(s, looks, n)
  {
    hide Handle, Without;
    var kept, rest, look := Kept(s, looks, n - 1), s.pending[n - 1..], LookAt(looks, n - 1);
    KeptNext(kept, rest, Late(rest[0], look) || look.ready);
    assert rest[1..] == s.pending[n..];
    assert |p.pending| - (|s.pending| - (n - 1)) == |kept|;
  }

  lemma NothingPolled(line: nat -> bool, s: State, looks: seq<Look>)
    ensures Polled(line, s, looks, 0) == s
    ensures Remaining(s, looks, 0) == s.pending && s.replies + Owed(s, looks, 0) == s.replies
  {
  }

  lemma {:induction false} PollKeeps(line: nat -> bool, s: State, looks: seq<Look>, n: nat)
    requires n <= |s.pending|
    ensures Polled(line, s, looks, n).pending == Remaining(s, looks, n)
  {
    hide Polled, Handle, Remaining, Late;
    if n == 0 {
      NothingPolled(line, s, looks);
    } else {
      PollKeeps(line, s, looks, n - 1);
      PolledNext(line, s, looks, n - 1);
      OneKept(line, s, Polled(line, s, looks, n - 1), looks, n);
    }
  }

  lemma FirstRemaining(s: State, looks: seq<Look>, n: nat)
    requires n < |s.pending|
    ensures var r := Remaining(s, looks, n);
      |r| >= |s.pending| - n && r[|r| - (|s.pending| - n)] == s.pending[n]
  {
  }

  lemma {:induction false} PollReplies(line: nat -> bool, s: State, looks: seq<Look>, n: nat)
    requires n <= |s.pending| && forall k :: line(k)
    ensures var r := Polled(line, s, looks, n);
      r.replies == s.replies + Owed(s, looks, n) && r.requests == s.requests && r.discarded == s.discarded
  {
    hide Polled, Handle, Owed, Remaining, Late;
    if n == 0 {
      NothingPolled(line, s, looks);
    } else {
      PollReplies(line, s, looks, n - 1);
      PollKeeps(line, s, looks, n - 1);
      PolledNext(line, s, looks, n - 1);
      FirstRemaining(s, looks, n - 1);
      OwedNext(line, s, Polled(line, s, looks, n - 1), looks, n);
    }
  }

  /** One poll answers every late request with error 104 and every readable one with the message of the
      web server or error 102, and keeps just the others, in order. */
  lemma PollEffect(line: nat -> bool, s: State, looks: seq<Look>)
    requires forall k :: line(k)
    ensures var r, n := Polled(line, s, looks, |s.pending|), |s.pending|;
      && r.pending == Kept(s, looks, n) && r.replies == s.replies + Owed(s, looks, n)
      && r.requests == s.requests && r.discarded == s.discarded
  {
    PollKeeps(line, s, looks, |s.pending|);
    PollReplies(line, s, looks, |s.pending|);
  }

  lemma OwedNext(line: nat -> bool, s: State, p: State, looks: seq<Look>, n: nat)
    requires 0 < n <= |s.pending| && |s.pending| - (n - 1) <= |p.pending| && forall k :: line(k)
    requires p.pending[|p.pending| - (|s.pending| - (n - 1))] == s.pending[n - 1]
    requires p.replies == s.replies + Owed(s, looks, n - 1)
    ensures Handle(line, p, |p.pending| - (|s.pending| - (n - 1)), LookAt(looks, n - 1)).replies
         == s.replies + Owed(s, looks, n)
    ensures var r := Handle(line, p, |p.pending| - (|s.pending| - (n - 1)), LookAt(looks, n - 1));
      r.requests == p.requests && r.discarded == p.discarded
  {
    assert s.replies + Owed(s, looks, n - 1) + [] == s.replies + Owed(s, looks, n - 1);
  }

  /** A message that cannot be passed on is replaced by error 102. */
  lemma SecondTry(line: nat -> bool, s: State, j: nat, look: Look)
    requires j < |s.pending| && s.pending[j].time + 180 >= look.now && look.ready && look.response.Some?
    requires !line(s.attempts) && line(s.attempts + 1)
    ensures var e, r := s.pending[j], Handle(line, s, j, look);
      r.replies == s.replies + [Reply(e.id, e.userid, Error(102, e.cgi))] && r.attempts == s.attempts + 2
  {
  }

  /** What a request means: its length fields agree with the message, the user is in bytes 8 to 11, and the
      text runs from byte 14 to the first zero. */
  ghost predicate Asks(data: seq<byte>, user: u32, cgi: seq<byte>) {
    && |data| >= 14 && data[12] as int * 0x100 + data[13] as int + 14 == |data|
    && user == data[8] as int * 0x100_0000 + data[9] as int * 0x1_0000 + data[10] as int * 0x100 + data[11] as int
    && cgi <= data[14..] && 0 !in cgi && (|cgi| < |data| - 14 ==> data[14 + |cgi|] == 0)
  }

  lemma AsksText(data: seq<byte>, user: u32, cgi: seq<byte>)
    requires Asks(data, user, cgi)
    ensures WellFormed(data) && U32At(data, 8) == user && CString(data[14..]) == cgi
  {
    CStringIs(data[14..], |cgi|);
  }

  /** The table takes 31 requests, one more than `CC_CGI_MAX`: such a request becomes the first entry, with its
      socket, time, text and user, if it can be sent on, and gets error 101 if not. Further ones get 103. */
  lemma AddedIff(
    line: nat -> bool, s: State, data: seq<byte>, sock: Option<int>, now: int, user: u32, cgi: seq<byte>)
    requires Inv(s) && Asks(data, user, cgi)
    ensures
      var r, id := Transferred(line, s, data, sock, now), |s.requests|;
      && r.requests == s.requests + [user] && r.discarded == s.discarded
      && if |s.pending| < 31 && sock.Some? then
           r.pending == [Entry(id, sock.value, now, cgi, user)] + s.pending && r.replies == s.replies
         else
           var refusal := Reply(id, user, Error(if |s.pending| < 31 then 101 else 103, cgi));
           r.pending == s.pending && r.replies == s.replies + if line(s.attempts) then [refusal] else []
  {
    AsksText(data, user, cgi);
    hide Asks, CString, U32At, WellFormed;
    assert s.replies + [] == s.replies;
  }

  /** Anything else is passed over. */
  lemma NoRequestIgnored(line: nat -> bool, s: State, data: seq<byte>, sock: Option<int>, now: int)
    requires |data| < 14 || data[12] as int * 0x100 + data[13] as int + 14 != |data|
    ensures Transferred(line, s, data, sock, now) == s
  {
  }

  /** A relink discards just what is pending. */
  lemma RelinkDiscards(s: State)
    ensures var r := Freed(s);
      && r.pending == [] && r.discarded == s.discarded + Ids(s.pending)
      && r.replies == s.replies && r.requests == s.requests
  {
  }

  lemma PolledNext(line: nat -> bool, s: State, looks: seq<Look>, n: nat)
    requires n <= |s.pending|
    ensures Polled(line, s, looks, 0) == s
    ensures n < |s.pending| ==>
      var p := Polled(line, s, looks, n);
      Polled(line, s, looks, n + 1) == Handle(line, p, |p.pending| - (|s.pending| - n), LookAt(looks, n))
  {
    hide Handle;
  }

  lemma CountDown(number: int, k: nat)
    ensures ((number + 255 * k) % 256 + 255) % 256 == (number + 255 * (k + 1)) % 256
  {
  }

  // ---------- the client ----------

  class Client {
    var pending: seq<Entry>
    var number: byte
    ghost var attempts: nat
    ghost var requests: seq<u32>
    ghost var replies: seq<Reply>
    ghost var discarded: seq<nat>
    ghost var lost: seq<nat>

    ghost function View(): State
      reads this
    {
      State(pending, number, attempts, requests, replies, discarded, lost)
    }

    constructor ()
      ensures View() == Start()
    {
      pending, number := [], 0;
      attempts, requests, replies, discarded, lost := 0, [], [], [], [];
    }

    /** `cc_transfer_ack`; `took` tells whether the line takes the message. */
    method TransferAck(ghost line: nat -> bool, reply: Reply, took: bool)
      requires took == line(attempts)
      modifies this`attempts, this`replies
      ensures View() == Ack(line, old(View()), reply)
    {
      replies := if took then replies + [reply] else replies;
      attempts := attempts + 1;
    }

    /** `cc_del_cgi` and the decrement that follows every call of it. */
    method DelCgi(j: nat)
      requires j < |pending|
      modifies this`pending, this`number
      ensures View() == Drop(old(View()), j)
    {
      pending := pending[..j] + pending[j + 1..];
      number := (number + 255) % 256;
    }

    /** `cc_free_cgi`. */
    method FreeCgi()
      modifies this`pending, this`number, this`discarded
      ensures View() == Freed(old(View()))
    {
      ghost var all := pending;
      while pending != []
        invariant |pending| <= |all| && discarded == old(discarded)
        invariant number == (old(number) + 255 * (|all| - |pending|)) % 256
      {
        CountDown(old(number), |all| - |pending|);
        DelCgi(0);
      }
      discarded := discarded + Ids(all);
    }

    /** `cc_add_cgi`: the new entry becomes the first. */
    method AddCgi(e: Entry)
      modifies this`pending, this`number
      ensures pending == [e] + old(pending) && number == (old(number) + 1) % 256
    {
      pending := [e] + pending;
      number := (number + 1) % 256;
    }

    /** `cc_transfer`, with `cc_send_cgi` as the connection it gets. `attempt` and `id` are the lengths of
        the history so far, which the program does not keep. */
    method Transfer(line: nat -> bool, attempt: nat, data: seq<byte>, sock: Option<int>, now: int, id: nat)
      requires attempt == attempts && id == |requests|
      modifies this
      ensures View() == Transferred(line, old(View()), data, sock, now)
    {
      if |data| < 14 || U16At(data, 12) + 14 != |data| {
        return;
      }
      var userid, cgi := U32At(data, 8), CString(data[14..]);
      requests := requests + [userid];
      if number > CGI_MAX {
        TransferAck(line, Reply(id, userid, Error(103, cgi)), line(attempt));
        lost := if line(attempt) then lost else lost + [id];
        return;
      }
      if sock.None? {
        TransferAck(line, Reply(id, userid, Error(101, cgi)), line(attempt));
        lost := if line(attempt) then lost else lost + [id];
        return;
      }
      AddCgi(Entry(id, sock.value, now, cgi, userid));
    }

    /** The body of the loop of `cc_check_cgi`: whether the entry is gone, and the messages tried so far. */
    method CheckOne(line: nat -> bool, attempt: nat, j: nat, look: Look) returns (gone: bool, tries: nat)
      requires attempt == attempts && j < |pending|
      modifies this
      ensures View() == Handle(line, old(View()), j, look)
      ensures gone == (Late(old(pending)[j], look) || look.ready) && tries == attempts
    {
      var e := pending[j];
      tries := attempt;
      if e.time + TIMEOUT < look.now {
        TransferAck(line, Reply(e.id, e.userid, Error(104, e.cgi)), line(tries));
        lost := if line(tries) then lost else lost + [e.id];
        tries := tries + 1;
      } else if look.ready {
        var sent := false;
        if look.response.Some? {
          sent := line(tries);
          TransferAck(line, Reply(e.id, e.userid, Forwarded(look.response.value)), sent);
          tries := tries + 1;
        }
        if !sent {
          TransferAck(line, Reply(e.id, e.userid, Error(102, e.cgi)), line(tries));
          lost := if line(tries) then lost else lost + [e.id];
          tries := tries + 1;
        }
      } else {
        return false, tries;
      }
      DelCgi(j);
      gone := true;
    }

    /** `cc_check_cgi`: a safe walk of the list that deletes as it goes. */
    method CheckCgi(line: nat -> bool, attempt: nat, looks: seq<Look>)
      requires attempt == attempts
      modifies this
      ensures View() == Polled(line, old(View()), looks, |old(pending)|)
    {
      hide Handle, Late, Polled, Without;
      ghost var s := View();
      PolledNext(line, s, looks, 0);
      var j, i, count, tries := 0, 0, |pending|, attempt;
      while i < count
        invariant 0 <= i <= count == |s.pending| && 0 <= j && |pending| - j == count - i
        invariant View() == Polled(line, s, looks, i) && tries == attempts
      {
        PolledNext(line, s, looks, i);
        var gone;
        gone, tries := CheckOne(line, tries, j, LookAt(looks, i));
        assert View() == Polled(line, s, looks, i + 1);
        WithoutLength(Polled(line, s, looks, i).pending, j);
        j := if gone then j else j + 1;
        i := i + 1;
      }
    }
  }
}
