/** The list of router hosts that is mirrored into the cloud's set of attached devices. */
module AliSpec {
  import opened Bytes

  datatype Record = Record(mac: Mac, name: string, os: int, online: bool)

  /** One host of the router's dump. */
  datatype Host = Host(mac: Mac, name: string, os: int, online: bool)

  /** The list, front first, its counter, and the devices attached and not detached. */
  datatype State = State(hosts: seq<Record>, num: int, attached: set<Mac>)

  function Find(hosts: seq<Record>, mac: Mac): (i: nat)
    ensures i <= |hosts| && (i < |hosts| ==> hosts[i].mac == mac)
    ensures forall j :: 0 <= j < i ==> hosts[j].mac != mac
  {
    if hosts == [] || hosts[0].mac == mac then 0 else 1 + Find(hosts[1..], mac)
  }

  /** The record of a MAC comes to the front, new if there is none. */
  function AddHost(s: State, mac: Mac): (r: State)
    ensures r.hosts != [] && r.hosts[0].mac == mac
  {
    var i := Find(s.hosts, mac);
    if i < |s.hosts| then s.(hosts := [s.hosts[i]] + s.hosts[..i] + s.hosts[i + 1..])
    else s.(hosts := [Record(mac, "", 0, false)] + s.hosts, num := s.num + 1)
  }

  function IsOnline(h: Host, denied: set<Mac>): bool {
    h.online && h.mac !in denied
  }

  /** A dumped host is compared with its record and the cloud told of the difference. */
  function Compare(s: State, h: Host, denied: set<Mac>): (r: State)
    requires s.hosts != []
  {
    var ahr := s.hosts[0];
    var f1, f2 := ahr.online, IsOnline(h, denied);
    var f3 := ahr.os != h.os || ahr.name != h.name;
    if !f3 && f1 == f2 then s
    else
      var hosts := s.hosts[0 := Record(ahr.mac, h.name, h.os, f2)];
      if f1 != f2 then State(hosts, s.num, if f2 then s.attached + {ahr.mac} else s.attached - {ahr.mac})
      else if f1 then State(hosts, s.num, s.attached + {ahr.mac})
      else State(hosts, s.num, s.attached)
  }

  function Visit(s: State, h: Host, denied: set<Mac>): (r: State) {
    Compare(AddHost(s, h.mac), h, denied)
  }

  function VisitAll(s: State, dump: seq<Host>, denied: set<Mac>): (r: State) {
    if dump == [] then s else Visit(VisitAll(s, dump[..|dump| - 1], denied), dump[|dump| - 1], denied)
  }

  function OnlineMacs(hosts: seq<Record>): (r: set<Mac>) {
    set i | 0 <= i < |hosts| && hosts[i].online :: hosts[i].mac
  }

  function Macs(hosts: seq<Record>): (r: set<Mac>) {
    set i | 0 <= i < |hosts| :: hosts[i].mac
  }

  function DumpedMacs(dump: seq<Host>): (r: set<Mac>) {
    set i | 0 <= i < |dump| :: dump[i].mac
  }

  /** Everything behind the first `num` records goes, unless the counter says there is nothing. */
  function DelHost(s: State, num: nat): (r: State) {
    if num == s.num || num >= |s.hosts| then s
    else
      var gone := s.hosts[num..];
      State(s.hosts[..num], s.num - |gone|, s.attached - OnlineMacs(gone))
  }

  /** An empty dump, or none at all, changes nothing; otherwise every host of it is visited and the rest of
      the list goes. */
  function Refresh(s: State, dump: seq<Host>, denied: set<Mac>): (r: State) {
    if dump == [] then s else DelHost(VisitAll(s, dump, denied), |dump|)
  }

  // ---------- the invariant ----------

  ghost predicate Distinct(hosts: seq<Record>) {
    forall i, j :: 0 <= i < j < |hosts| ==> hosts[i].mac != hosts[j].mac
  }

  /** One record a MAC, the counter is the length, and the devices attached are those online. */
  ghost predicate Inv(s: State) {
    Distinct(s.hosts) && s.num == |s.hosts| && s.attached == OnlineMacs(s.hosts)
  }

  lemma ToFront(hosts: seq<Record>, i: nat)
    requires Distinct(hosts) && i < |hosts|
    ensures var r := [hosts[i]] + hosts[..i] + hosts[i + 1..];
            Distinct(r) && Macs(r) == Macs(hosts) && OnlineMacs(r) == OnlineMacs(hosts)
  {
    var r := [hosts[i]] + hosts[..i] + hosts[i + 1..];
    assert r[0] == hosts[i];
    assert forall j :: 1 <= j <= i ==> r[j] == hosts[j - 1];
    assert forall j :: i < j < |r| ==> r[j] == hosts[j];
    assert forall j :: 0 <= j < i ==> hosts[j] == r[j + 1];
  }

  lemma NewFront(hosts: seq<Record>, e: Record)
    requires Distinct(hosts) && (forall i :: 0 <= i < |hosts| ==> hosts[i].mac != e.mac) && !e.online
    ensures var r := [e] + hosts;
            Distinct(r) && Macs(r) == Macs(hosts) + {e.mac} && OnlineMacs(r) == OnlineMacs(hosts)
  {
    var r := [e] + hosts;
    assert r[0] == e && forall j :: 1 <= j < |r| ==> r[j] == hosts[j - 1];
    assert forall j :: 0 <= j < |hosts| ==> hosts[j] == r[j + 1];
  }

  lemma AddHostKeepsInv(s: State, mac: Mac)
    requires Inv(s)
    ensures Inv(AddHost(s, mac)) && Macs(AddHost(s, mac).hosts) == Macs(s.hosts) + {mac}
  {
    hide Distinct, OnlineMacs;
    var i := Find(s.hosts, mac);
    if i < |s.hosts| {
      ToFront(s.hosts, i);
      assert mac in Macs(s.hosts);
    } else {
      NewFront(s.hosts, Record(mac, "", 0, false));
    }
  }

  lemma CompareKeepsInv(s: State, h: Host, denied: set<Mac>)
    requires Inv(s) && s.hosts != []
    ensures Inv(Compare(s, h, denied)) && Macs(Compare(s, h, denied).hosts) == Macs(s.hosts)
  {
    var r := Compare(s, h, denied);
    assert forall j :: 0 <= j < |s.hosts| ==> r.hosts[j].mac == s.hosts[j].mac;
    assert forall j :: 1 <= j < |s.hosts| ==> r.hosts[j] == s.hosts[j];
  }

  lemma DelHostKeepsInv(s: State, num: nat)
    requires Inv(s)
    ensures Inv(DelHost(s, num))
  {
    if num < |s.hosts| {
      var kept, gone := s.hosts[..num], s.hosts[num..];
      assert forall i :: 0 <= i < |gone| ==> gone[i] == s.hosts[num + i];
      assert OnlineMacs(kept) == s.attached - OnlineMacs(gone);
    }
  }

  lemma DumpedOneMore(dump: seq<Host>)
    requires dump != []
    ensures DumpedMacs(dump) == DumpedMacs(dump[..|dump| - 1]) + {dump[|dump| - 1].mac}
  {
  }

  lemma VisitKeepsInv(s: State, h: Host, denied: set<Mac>)
    requires Inv(s)
    ensures Inv(Visit(s, h, denied)) && Macs(Visit(s, h, denied).hosts) == Macs(s.hosts) + {h.mac}
  {
    AddHostKeepsInv(s, h.mac);
    CompareKeepsInv(AddHost(s, h.mac), h, denied);
  }

  lemma {:induction false} VisitAllKeepsInv(s: State, dump: seq<Host>, denied: set<Mac>)
    requires Inv(s)
    ensures Inv(VisitAll(s, dump, denied))
    ensures Macs(VisitAll(s, dump, denied).hosts) == Macs(s.hosts) + DumpedMacs(dump)
  {
    hide Inv, Visit, Macs;
    if dump != [] {
      var n := |dump| - 1;
      VisitAllKeepsInv(s, dump[..n], denied);
      VisitKeepsInv(VisitAll(s, dump[..n], denied), dump[n], denied);
      DumpedOneMore(dump);
    }
  }

  /** A refresh keeps the invariant, whatever the dump. */
  lemma RefreshKeepsInv(s: State, dump: seq<Host>, denied: set<Mac>)
    requires Inv(s)
    ensures Inv(Refresh(s, dump, denied))
  {
    VisitAllKeepsInv(s, dump, denied);
    DelHostKeepsInv(VisitAll(s, dump, denied), |dump|);
  }

  datatype Call = Call(dump: seq<Host>, denied: set<Mac>)

  function Run(calls: seq<Call>): (r: State) {
    if calls == [] then State([], 0, {})
    else Refresh(Run(calls[..|calls| - 1]), calls[|calls| - 1].dump, calls[|calls| - 1].denied)
  }

  /** After any refreshes, the devices attached and not detached are those recorded as online. */
  lemma {:induction false} AttachedAreOnline(calls: seq<Call>)
    ensures Inv(Run(calls))
  {
    if calls != [] {
      var n := |calls| - 1;
      AttachedAreOnline(calls[..n]);
      RefreshKeepsInv(Run(calls[..n]), calls[n].dump, calls[n].denied);
    }
  }

  // ---------- what is in the list after a refresh ----------

  /** The records of `seen` come first. */
  ghost predicate InFront(hosts: seq<Record>, seen: set<Mac>) {
    && |seen| <= |hosts|
    && (forall i :: 0 <= i < |seen| ==> hosts[i].mac in seen)
    && (forall i :: |seen| <= i < |hosts| ==> hosts[i].mac !in seen)
  }

  lemma AddHostInFront(s: State, seen: set<Mac>, mac: Mac)
    requires Inv(s) && InFront(s.hosts, seen)
    ensures InFront(AddHost(s, mac).hosts, seen + {mac})
  {
    var i, r, seen' := Find(s.hosts, mac), AddHost(s, mac).hosts, seen + {mac};
    if mac in seen {
      assert seen' == seen;
      FindSeen(s.hosts, seen, mac);
    } else {
      assert |seen'| == |seen| + 1;
    }
    forall j | 1 <= j < |r|
      ensures r[j].mac in seen' <==> j < |seen'|
    {
      var k := if i < |s.hosts| && j > i then j else j - 1;
      assert r[j] == s.hosts[k];
    }
  }

  /** A seen MAC is found among the first records. */
  lemma FindSeen(hosts: seq<Record>, seen: set<Mac>, mac: Mac)
    requires Distinct(hosts) && InFront(hosts, seen) && mac in seen
    ensures Find(hosts, mac) < |seen|
  {
    var front := hosts[..|seen|];
    if Find(hosts, mac) >= |seen| {
      assert forall j :: 0 <= j < |seen| ==> front[j].mac != mac;
      DistinctCount(front);
      assert Macs(front) <= seen - {mac};
      Cardinality(Macs(front), seen - {mac});
      assert false;
    }
  }

  lemma {:induction false} DistinctCount(hosts: seq<Record>)
    requires Distinct(hosts)
    ensures |Macs(hosts)| == |hosts|
  {
    if hosts != [] {
      var n := |hosts| - 1;
      DistinctCount(hosts[..n]);
      assert Macs(hosts) == Macs(hosts[..n]) + {hosts[n].mac};
      assert hosts[n].mac !in Macs(hosts[..n]);
    }
  }

  lemma {:induction false} Cardinality(a: set<Mac>, b: set<Mac>)
    requires a <= b
    ensures |a| <= |b|
    decreases b
  {
    if a != {} {
      var x :| x in a;
      Cardinality(a - {x}, b - {x});
    }
  }

  lemma CompareInFront(s: State, seen: set<Mac>, h: Host, denied: set<Mac>)
    requires s.hosts != [] && InFront(s.hosts, seen)
    ensures InFront(Compare(s, h, denied).hosts, seen)
  {
    var r := Compare(s, h, denied);
    assert |r.hosts| == |s.hosts| && forall i :: 0 <= i < |r.hosts| ==> r.hosts[i].mac == s.hosts[i].mac;
  }

  lemma {:induction false} VisitAllInFront(s: State, dump: seq<Host>, denied: set<Mac>)
    requires Inv(s)
    ensures InFront(VisitAll(s, dump, denied).hosts, DumpedMacs(dump))
  {
    hide InFront, Inv, Compare, DumpedMacs;
    if dump == [] {
      NothingInFront(s.hosts);
    } else {
      var n := |dump| - 1;
      var before := VisitAll(s, dump[..n], denied);
      VisitAllInFront(s, dump[..n], denied);
      VisitAllKeepsInv(s, dump[..n], denied);
      AddHostInFront(before, DumpedMacs(dump[..n]), dump[n].mac);
      DumpedOneMore(dump);
      CompareInFront(AddHost(before, dump[n].mac), DumpedMacs(dump), dump[n], denied);
    }
  }

  lemma NothingInFront(hosts: seq<Record>)
    ensures InFront(hosts, DumpedMacs([]))
  {
  }

  ghost predicate NoRepeats(dump: seq<Host>) {
    forall i, j :: 0 <= i < j < |dump| ==> dump[i].mac != dump[j].mac
  }

  lemma {:induction false} DumpCount(dump: seq<Host>)
    ensures |DumpedMacs(dump)| <= |dump|
    ensures |DumpedMacs(dump)| == |dump| <==> NoRepeats(dump)
  {
    if dump != [] {
      var n := |dump| - 1;
      DumpCount(dump[..n]);
      DumpedOneMore(dump);
      if dump[n].mac in DumpedMacs(dump[..n]) {
        assert DumpedMacs(dump) == DumpedMacs(dump[..n]);
      } else {
        assert |DumpedMacs(dump)| == |DumpedMacs(dump[..n])| + 1;
      }
    }
  }

  /** A refresh leaves exactly the dumped MACs in the list if and only if the dump names no MAC twice
      or there was nothing stale to remove: the counter compared is that of the dump. */
  lemma RefreshListsDumpIff(s: State, dump: seq<Host>, denied: set<Mac>)
    requires Inv(s) && dump != []
    ensures Macs(Refresh(s, dump, denied).hosts) == DumpedMacs(dump)
            <==> NoRepeats(dump) || Macs(s.hosts) <= DumpedMacs(dump)
  {
    var v, seen := VisitAll(s, dump, denied), DumpedMacs(dump);
    VisitAllKeepsInv(s, dump, denied);
    VisitAllInFront(s, dump, denied);
    DumpCount(dump);
    var r := Refresh(s, dump, denied).hosts;
    assert r == if |dump| < |v.hosts| then v.hosts[..|dump|] else v.hosts;
    if |r| == |seen| {
      ListedExactly(v.hosts, seen);
      assert r == v.hosts[..|seen|];
    } else {
      assert r[|seen|].mac in Macs(r);
      assert r[|seen|].mac !in seen && r[|seen|].mac in Macs(v.hosts);
    }
    if Macs(s.hosts) <= seen {
      assert Macs(v.hosts) == seen;
      DistinctCount(v.hosts);
    }
  }

  lemma ListedExactly(hosts: seq<Record>, seen: set<Mac>)
    requires Distinct(hosts) && InFront(hosts, seen) && seen <= Macs(hosts)
    ensures Macs(hosts[..|seen|]) == seen
  {
    forall m | m in seen
      ensures m in Macs(hosts[..|seen|])
    {
      FindSeen(hosts, seen, m);
      var i :| 0 <= i < |hosts| && hosts[i].mac == m;
      var j := Find(hosts, m);
      assert hosts[..|seen|][j].mac == m;
    }
  }

  // ---------- the records themselves ----------

  function RecordOf(h: Host, denied: set<Mac>): Record {
    Record(h.mac, h.name, h.os, IsOnline(h, denied))
  }

  /** A visited host has its record in front; the records before are shifted by one. */
  lemma VisitOrder(s: State, h: Host, denied: set<Mac>, n: nat)
    requires Inv(s) && n <= |s.hosts| && forall j :: 0 <= j < n ==> s.hosts[j].mac != h.mac
    ensures var r := Visit(s, h, denied);
      && |r.hosts| > n && r.hosts[0] == RecordOf(h, denied)
      && forall j :: 0 <= j < n ==> r.hosts[j + 1] == s.hosts[j]
  {
    var a := AddHost(s, h.mac);
    assert Find(s.hosts, h.mac) >= n;
    assert forall j :: 0 <= j < n ==> a.hosts[j + 1] == s.hosts[j];
  }

  lemma {:induction false} VisitAllOrder(s: State, dump: seq<Host>, denied: set<Mac>)
    requires Inv(s) && NoRepeats(dump)
    ensures var r := VisitAll(s, dump, denied);
      && |r.hosts| >= |dump|
      && forall j :: 0 <= j < |dump| ==> r.hosts[j] == RecordOf(dump[|dump| - 1 - j], denied)
  {
    hide Visit, Inv;
    if dump != [] {
      var n := |dump| - 1;
      VisitAllOrder(s, dump[..n], denied);
      VisitAllKeepsInv(s, dump[..n], denied);
      var before, r := VisitAll(s, dump[..n], denied), VisitAll(s, dump, denied);
      assert forall j :: 0 <= j < n ==> before.hosts[j].mac == dump[n - 1 - j].mac;
      VisitOrder(before, dump[n], denied, n);
      forall j | 0 <= j < |dump|
        ensures r.hosts[j] == RecordOf(dump[|dump| - 1 - j], denied)
      {
        if j > 0 {
          assert r.hosts[j - 1 + 1] == before.hosts[j - 1];
        }
      }
    }
  }

  /** After a refresh with a dump of distinct MACs, whatever the list was before, the records are just
      those of the dump, the last one first, and the devices attached are the dumped hosts that are online
      and not denied. */
  lemma RefreshRecordsDump(s: State, dump: seq<Host>, denied: set<Mac>)
    requires Inv(s) && dump != [] && NoRepeats(dump)
    ensures var r := Refresh(s, dump, denied);
            && |r.hosts| == |dump|
            && (forall j :: 0 <= j < |dump| ==> Records(r.hosts[j], dump[|dump| - 1 - j], denied))
            && r.attached == set i | 0 <= i < |dump| && dump[i].online && dump[i].mac !in denied :: dump[i].mac
  {
    hide Visit, Inv, Compare, VisitAll, Refresh;
    RefreshIsOrdered(s, dump, denied);
    RefreshKeepsInv(s, dump, denied);
    InvMeans(Refresh(s, dump, denied));
    RefreshListsDumpIff(s, dump, denied);
    var r := Refresh(s, dump, denied);
    forall i | 0 <= i < |dump|
      ensures RecordOf(dump[i], denied) in r.hosts
    {
      assert r.hosts[|dump| - 1 - i] == RecordOf(dump[i], denied);
    }
    OnlineAreDumped(r.hosts, dump, denied);
  }

  /** The record says what the dump says. */
  predicate Records(r: Record, h: Host, denied: set<Mac>) {
    r.mac == h.mac && r.name == h.name && r.os == h.os && r.online == (h.online && h.mac !in denied)
  }

  lemma InvMeans(s: State)
    requires Inv(s)
    ensures Distinct(s.hosts) && s.attached == OnlineMacs(s.hosts)
  {
  }

  lemma RefreshIsOrdered(s: State, dump: seq<Host>, denied: set<Mac>)
    requires Inv(s) && dump != [] && NoRepeats(dump)
    ensures var r := Refresh(s, dump, denied);
      |r.hosts| == |dump| && forall j :: 0 <= j < |dump| ==> r.hosts[j] == RecordOf(dump[|dump| - 1 - j], denied)
  {
    hide VisitAll;
    VisitAllKeepsInv(s, dump, denied);
    VisitAllOrder(s, dump, denied);
  }

  /** A dump without hosts changes nothing. */
  lemma EmptyDump(s: State, denied: set<Mac>)
    ensures Refresh(s, [], denied) == s
  {
  }

  lemma OnlineAreDumped(hosts: seq<Record>, dump: seq<Host>, denied: set<Mac>)
    requires Distinct(hosts) && Macs(hosts) == DumpedMacs(dump)
    requires forall i :: 0 <= i < |dump| ==> RecordOf(dump[i], denied) in hosts
    ensures OnlineMacs(hosts) == set i | 0 <= i < |dump| && dump[i].online && dump[i].mac !in denied :: dump[i].mac
  {
    forall j | 0 <= j < |hosts|
      ensures exists i :: 0 <= i < |dump| && hosts[j] == RecordOf(dump[i], denied)
    {
      assert hosts[j].mac in Macs(hosts);
      var i :| 0 <= i < |dump| && dump[i].mac == hosts[j].mac;
      var k :| 0 <= k < |hosts| && hosts[k] == RecordOf(dump[i], denied);
      assert k == j;
    }
  }
}
