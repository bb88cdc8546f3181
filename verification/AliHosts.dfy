/** The host list as the code keeps it: records changed in place, devices attached and detached. */
module AliHosts {
  import opened Bytes
  import opened AliSpec

  class HostRecord {
    const mac: Mac
    var name: string
    var os: int
    var online: bool

    function View(): Record
      reads this
    {
      Record(mac, name, os, online)
    }

    constructor (mac: Mac)
      ensures View() == Record(mac, "", 0, false)
    {
      this.mac := mac;
      name, os, online := "", 0, false;
    }
  }

  function Views(hosts: seq<HostRecord>): (r: seq<Record>)
    reads hosts
    ensures |r| == |hosts|
  {
    seq(|hosts|, i requires 0 <= i < |hosts| reads hosts => hosts[i].View())
  }

  ghost predicate AllDifferent(hosts: seq<HostRecord>) {
    forall i, j :: 0 <= i < j < |hosts| ==> hosts[i] != hosts[j]
  }

  function Moved(hosts: seq<HostRecord>, i: nat): seq<HostRecord>
    requires i < |hosts|
  {
    [hosts[i]] + hosts[..i] + hosts[i + 1..]
  }

  lemma MovedDifferent(hosts: seq<HostRecord>, i: nat)
    requires AllDifferent(hosts) && i < |hosts|
    ensures AllDifferent(Moved(hosts, i)) && forall h :: h in Moved(hosts, i) ==> h in hosts
  {
  }

  lemma MovedViews(hosts: seq<HostRecord>, i: nat)
    requires i < |hosts|
    ensures Views(Moved(hosts, i)) == [Views(hosts)[i]] + Views(hosts)[..i] + Views(hosts)[i + 1..]
  {
  }

  class HostList {
    var hosts: seq<HostRecord>
    var num: int
    /** What the cloud was told: attached and not detached since. */
    var attached: set<Mac>

    ghost predicate Valid()
      reads this, hosts
    {
      AllDifferent(hosts)
    }

    function View(): State
      reads this, hosts
    {
      State(Views(hosts), num, attached)
    }

    constructor ()
      ensures Valid() && View() == State([], 0, {})
    {
      hosts, num, attached := [], 0, {};
    }

    method FindHost(mac: Mac) returns (i: nat)
      ensures i == Find(Views(hosts), mac)
    {
      i := 0;
      var vs := Views(hosts);
      while i < |hosts|
        invariant i <= |hosts| && i + Find(vs[i..], mac) == Find(vs, mac)
      {
        assert vs[i..][1..] == vs[i + 1..];
        if hosts[i].mac == mac {
          return;
        }
        i := i + 1;
      }
      assert vs[i..] == [];
    }

    method AddRecord(mac: Mac) returns (ahr: HostRecord)
      requires Valid()
      modifies this`hosts, this`num
      ensures Valid() && View() == AddHost(old(View()), mac)
      ensures hosts != [] && ahr == hosts[0] && (ahr in old(hosts) || fresh(ahr))
      ensures forall h :: h in hosts ==> h in old(hosts) || h == ahr
    {
      ghost var before := View();
      var i := FindHost(mac);
      if i < |hosts| {
        ahr := hosts[i];
        MovedDifferent(hosts, i);
        MovedViews(hosts, i);
        hosts := [ahr] + hosts[..i] + hosts[i + 1..];
      } else {
        ahr := new HostRecord(mac);
        assert forall j :: 0 <= j < |hosts| ==> hosts[j] != ahr;
        hosts := [ahr] + hosts;
        num := num + 1;
        assert Views(hosts) == AddHost(before, mac).hosts;
      }
    }

    /** The body of the refresh loop behind the lookup. */
    method CompareRecord(ahr: HostRecord, h: Host, denied: set<Mac>)
      requires Valid() && hosts != [] && ahr == hosts[0]
      modifies this`attached, ahr
      ensures Valid() && View() == Compare(old(View()), h, denied)
    {
      ghost var before := View();
      var up := h.online;
      if up && h.mac in denied {
        up := false;
      }
      var f1, f2, f3 := ahr.online, up, false;
      if ahr.os != h.os || ahr.name != h.name {
        f3 := true;
      }
      if !f3 && f1 == f2 {
        return;
      }
      ahr.name := h.name;
      ahr.os := h.os;
      ahr.online := up;
      if f1 != f2 {
        if f2 {
          attached := attached + {ahr.mac};
        } else {
          attached := attached - {ahr.mac};
        }
      } else if f3 && f1 {
        attached := attached + {ahr.mac};
      }
      assert Views(hosts) == before.hosts[0 := ahr.View()];
    }

    /** `ali_del_host`: everything behind the first `count` records goes. */
    method DelHosts(count: nat)
      requires Valid()
      modifies this
      ensures Valid() && View() == DelHost(old(View()), count)
      ensures forall h :: h in hosts ==> h in old(hosts)
    {
      if count == num {
        return;
      }
      var left := count;
      var all := hosts;
      ghost var before := View();
      var kept := [];
      for i := 0 to |all|
        invariant hosts == all && Views(all) == before.hosts
        invariant left == (if i <= count then count - i else 0)
        invariant kept == all[..if i <= count then i else count]
        invariant num == before.num - (if i <= count then 0 else i - count)
        invariant attached == before.attached - (if i <= count then {} else OnlineMacs(before.hosts[count..i]))
      {
        if left > 0 {
          left := left - 1;
          kept := kept + [all[i]];
        } else {
          OneMoreGone(before.hosts, count, i);
          if all[i].online {
            attached := attached - {all[i].mac};
          }
          num := num - 1;
        }
      }
      hosts := kept;
      if count < |all| {
        assert before.hosts[count..|all|] == before.hosts[count..];
        assert Views(kept) == before.hosts[..count];
      } else {
        assert kept == all;
      }
    }

    method RefreshHosts(dump: seq<Host>, denied: set<Mac>)
      requires Valid()
      modifies this, hosts
      ensures Valid() && View() == Refresh(old(View()), dump, denied)
    {
      if |dump| == 0 {
        return;
      }
      ghost var before := View();
      for i := 0 to |dump|
        invariant Valid() && View() == VisitAll(before, dump[..i], denied)
        invariant forall h :: h in hosts ==> h in old(hosts) || fresh(h)
      {
        var ahr := AddRecord(dump[i].mac);
        CompareRecord(ahr, dump[i], denied);
        assert dump[..i + 1][..i] == dump[..i];
      }
      assert dump[..|dump|] == dump;
      DelHosts(|dump|);
    }
  }

  lemma OneMoreGone(hosts: seq<Record>, count: nat, i: nat)
    requires count <= i < |hosts|
    ensures OnlineMacs(hosts[count..i + 1])
         == OnlineMacs(hosts[count..i]) + if hosts[i].online then {hosts[i].mac} else {}
  {
    var a, b := hosts[count..i + 1], hosts[count..i];
    assert forall j :: 0 <= j < |b| ==> b[j] == a[j];
    assert a[|b|] == hosts[i];
  }
}
