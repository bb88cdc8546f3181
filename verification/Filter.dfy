/** The filter list as the code keeps it: entries changed in place, kernel rules added and deleted. */
module Filter {
  import opened Bytes
  import opened FilterSpec
  import FilterRun

  /** The kernel's rule tables behind the registration calls. */
  class KernelRules {
    var net: map<int, Mac>
    var app: map<int, AppRule>
    var rate: map<int, RateRule>

    function View(): Kernel
      reads this
    {
      Kernel(net, app, rate)
    }

    constructor ()
      ensures View() == Kernel(map[], map[], map[])
    {
      net, app, rate := map[], map[], map[];
    }
  }

  class FilterEntry {
    const mac: Mac
    var online: bool
    var appid: seq<int>
    var id: int
    var flag: bool
    var speed: int
    var rateId: int

    function View(): Entry
      reads this
    {
      Entry(mac, online, appid, id, Rate(flag, speed, rateId))
    }

    constructor (mac: Mac)
      ensures View() == NewEntry(mac)
    {
      this.mac := mac;
      online, appid, id := false, [], 0;
      flag, speed, rateId := false, 0, 0;
    }

    /** `set_blacklist`, with `add_blacklist` and `add_blacklist_app`. */
    method RegisterDeny(apps: seq<int>, kern: KernelRules, reply: int) returns (setid: int)
      requires apps != []
      modifies kern
      ensures (kern.View(), setid) == SetBlacklist(View(), apps, old(kern.View()), reply)
    {
      if !online {
        return 0;
      }
      if reply <= 0 {
        return -1;
      }
      if apps[0] == 0 {
        kern.net := kern.net[reply := mac];
      } else {
        var n := |apps|;
        if n >= APP_RULE_MAX {
          n := APP_RULE_MAX;
        }
        kern.app := kern.app[reply := AppRule(mac, apps[..n])];
        assert n == |apps| ==> apps[..n] == apps;
      }
      setid := reply;
    }

    /** `ifilter_clear`. */
    method ClearRule(kern: KernelRules, gone: bool)
      modifies this`id, kern
      ensures (View(), kern.View()) == Clear(old(View()), old(kern.View()), gone)
    {
      if !online {
        return;
      }
      if id > 0 && |appid| > 0 {
        if appid[0] != 0 {
          kern.app := if gone then kern.app - {id} else kern.app;
        } else {
          kern.net := if gone then kern.net - {id} else kern.net;
        }
        id := -1;
      }
    }

    method HasApp(app: int) returns (r: bool)
      ensures r <==> app in appid
    {
      for i := 0 to |appid|
        invariant app !in appid[..i]
      {
        if appid[i] == app {
          return true;
        }
      }
      return false;
    }

    /** `ifilter_addid`. */
    method AddApp(app: int, kern: KernelRules, reply: int, gone: bool) returns (r: int)
      modifies this, kern
      ensures (View(), kern.View(), r) == AddId(old(View()), old(kern.View()), app, reply, gone)
    {
      var found := HasApp(app);
      if found {
        return 0;
      }
      var apps: seq<int>;
      if |appid| > 0 && appid[0] == 0 {
        apps := [0, app];
        if |appid| > 1 {
          apps := apps + appid[1..];
        }
      } else {
        apps := [app];
        if |appid| > 0 {
          apps := apps + appid;
        }
      }
      assert apps == WithApp(appid, app);
      var setid := RegisterDeny(apps, kern, reply);
      if setid == -1 {
        return -1;
      }
      if appid != [] {
        ClearRule(kern, gone);
      }
      appid := apps;
      id := setid;
      return 0;
    }

    /** `ifilter_delid`. */
    method DelApp(app: int, kern: KernelRules, reply: int, gone: bool) returns (r: int)
      requires EntryOk(View())
      modifies this, kern
      ensures (View(), kern.View(), r) == DelId(old(View()), old(kern.View()), app, reply, gone)
    {
      var found := HasApp(app);
      if !found {
        return 0;
      }
      if |appid| == 1 {
        ClearRule(kern, gone);
        appid := [];
        id := 0;
        return 0;
      }
      var apps := [];
      for i := 0 to |appid|
        invariant apps == WithoutApp(appid[..i], app)
      {
        assert appid[..i + 1][..i] == appid[..i];
        if appid[i] != app {
          apps := apps + [appid[i]];
        }
      }
      assert appid[..|appid|] == appid;
      WithoutAppKeeps(appid, app);
      var setid := RegisterDeny(apps, kern, reply);
      if app == -1 {
        return -1;
      }
      ClearRule(kern, gone);
      appid := apps;
      id := setid;
      return 0;
    }

    /** `rate_mac_del_in_data`. */
    method DropRate(kern: KernelRules, gone: bool) returns (r: int)
      modifies this, kern
      ensures (View(), kern.View(), r) == RateDelData(old(View()), old(kern.View()), gone)
    {
      if rateId > 0 {
        if !gone {
          return -1;
        }
        kern.rate := kern.rate - {rateId};
      }
      flag, speed, rateId := false, 0, 0;
      return 0;
    }

    /** `rate_mac_add_in_data`. */
    method PutRate(newSpeed: int, kern: KernelRules, reply: int) returns (r: int)
      modifies this, kern
      ensures (View(), kern.View(), r) == RateAddData(old(View()), old(kern.View()), newSpeed, reply)
    {
      if !online {
        flag, speed, rateId := true, newSpeed, 0;
        return 0;
      }
      if reply <= 0 {
        return -1;
      }
      kern.rate := kern.rate[reply := RateRule(mac, newSpeed)];
      flag, speed, rateId := true, newSpeed, reply;
      return 0;
    }

    /** The body of `ifilter_mac_up` for an entry. */
    method GoUp(kern: KernelRules, reply: int, rateReply: int) returns (r: int)
      modifies this, kern
      ensures (View(), kern.View(), r) == FilterSpec.MacUp(old(View()), old(kern.View()), reply, rateReply)
    {
      if online {
        return 0;
      }
      online := true;
      if |appid| > 0 {
        id := RegisterDeny(appid, kern, reply);
        if id <= 0 {
          return -1;
        }
      }
      if flag && rateId <= 0 {
        var _ := PutRate(speed, kern, rateReply);
      }
      return 0;
    }

    /** The body of `ifilter_mac_down` for an entry. */
    method GoDown(kern: KernelRules, gone: bool, rateGone: bool)
      modifies this, kern
      ensures (View(), kern.View()) == FilterSpec.MacDown(old(View()), old(kern.View()), gone, rateGone)
    {
      if !online {
        return;
      }
      if |appid| > 0 {
        ClearRule(kern, gone);
      }
      online := false;
      if rateId > 0 {
        kern.rate := if rateGone then kern.rate - {rateId} else kern.rate;
        rateId := 0;
      }
    }

    /** `rate_mac_get_in` for an entry. */
    method StoredRate() returns (r: int)
      ensures r == if flag then speed else -1
    {
      if !flag {
        return -1;
      }
      return speed;
    }

    /** `rate_mac_add` for an entry. */
    method SetRate(newSpeed: int, kern: KernelRules, reply: int, gone: bool) returns (r: int)
      modifies this, kern
      ensures (View(), kern.View(), r) == RateAdd(old(View()), old(kern.View()), newSpeed, reply, gone)
    {
      var rspeed := StoredRate();
      if rspeed >= 0 {
        if rspeed == newSpeed {
          return 0;
        }
        var deleted := DropRate(kern, gone);
        if deleted != 0 {
          return -1;
        }
      }
      if flag {
        if speed == newSpeed {
          return 0;
        }
        var deleted := DropRate(kern, gone);
        if deleted < 0 {
          return -1;
        }
      }
      r := PutRate(newSpeed, kern, reply);
    }

    /** `rate_mac_del` for an entry. */
    method EndRate(kern: KernelRules, gone: bool) returns (r: int)
      modifies this, kern
      ensures (View(), kern.View(), r) == RateDel(old(View()), old(kern.View()), gone)
    {
      var rspeed := StoredRate();
      if rspeed < 0 || !flag {
        return 0;
      }
      r := DropRate(kern, gone);
    }
  }

  function Views(es: seq<FilterEntry>): (r: seq<Entry>)
    reads es
    ensures |r| == |es|
  {
    seq(|es|, i requires 0 <= i < |es| reads es => es[i].View())
  }

  /** The list, newest entry first. */
  class FilterList {
    var entries: seq<FilterEntry>
    const kern: KernelRules

    ghost predicate Valid()
      reads this, entries, kern
    {
      && (forall i, j :: 0 <= i < j < |entries| ==> entries[i] != entries[j])
      && FilterRun.Healthy(View())
    }

    function View(): FilterRun.State
      reads this, entries, kern
    {
      FilterRun.State(Views(entries), kern.View())
    }

    constructor (k: KernelRules)
      requires k.View() == Kernel(map[], map[], map[])
      ensures Valid() && kern == k && View() == FilterRun.EMPTY
    {
      entries, kern := [], k;
    }

    /** `ifilter_search`. */
    method Search(mac: Mac) returns (i: nat)
      ensures i == FilterRun.Find(Views(entries), mac)
    {
      i := 0;
      var vs := Views(entries);
      while i < |entries|
        invariant i <= |entries| && i + FilterRun.Find(vs[i..], mac) == FilterRun.Find(vs, mac)
      {
        assert vs[i..][1..] == vs[i + 1..];
        if entries[i].mac == mac {
          return;
        }
        i := i + 1;
      }
      assert vs[i..] == [];
    }

    /** The entry of a MAC, made and put in front if there is none. */
    method Obtain(mac: Mac) returns (e: FilterEntry, ghost i: nat)
      requires Valid()
      modifies this`entries
      ensures Valid() && i < |entries| && entries[i] == e
      ensures var old' := old(Views(entries));
              var at := FilterRun.Find(old', mac);
              && (at < |old'| ==> entries == old(entries) && i == at)
              && (at == |old'| ==> fresh(e) && entries == [e] + old(entries) && i == 0 && e.View() == NewEntry(mac))
    {
      var at := Search(mac);
      if at < |entries| {
        e, i := entries[at], at;
      } else {
        e := new FilterEntry(mac);
        assert forall j :: 0 <= j < |entries| ==> entries[j] != e;
        entries, i := [e] + entries, 0;
        assert forall j :: 1 <= j < |entries| ==> Views(entries)[j] == old(Views(entries))[j - 1];
      }
    }

    /** `ifilter_add_mac`. */
    method AddMac(mac: Mac, app: int, reply: int, gone: bool) returns (r: int)
      requires Valid()
      modifies this`entries, entries, kern
      ensures Valid() && View() == FilterRun.Apply(old(View()), FilterRun.Add(mac, app, reply, gone))
    {
      hide AddId, DelId, MacUp, MacDown, RateAdd, RateDel, EntryOk;
      ghost var before := View();
      FilterRun.ApplyHealthy(before, FilterRun.Add(mac, app, reply, gone));
      var e, i := Obtain(mac);
      ghost var during := Views(entries);
      r := e.AddApp(app, kern, reply, gone);
      assert Views(entries) == during[i := e.View()];
      assert Views(entries) == FilterRun.Apply(before, FilterRun.Add(mac, app, reply, gone)).entries;
    }

    /** `ifilter_del_mac`. */
    method DelMac(mac: Mac, app: int, reply: int, gone: bool) returns (r: int)
      requires Valid()
      modifies this`entries, entries, kern
      ensures Valid() && View() == FilterRun.Apply(old(View()), FilterRun.Del(mac, app, reply, gone))
    {
      hide AddId, DelId, MacUp, MacDown, RateAdd, RateDel, EntryOk;
      ghost var before := View();
      FilterRun.ApplyHealthy(before, FilterRun.Del(mac, app, reply, gone));
      var i := Search(mac);
      if i < |entries| {
        var e := entries[i];
        r := e.DelApp(app, kern, reply, gone);
        assert Views(entries) == before.entries[i := e.View()];
      } else {
        r := 0;
      }
    }

    /** `ifilter_mac_up`. */
    method MacIsUp(mac: Mac, reply: int, rateReply: int) returns (r: int)
      requires Valid()
      modifies this`entries, entries, kern
      ensures Valid() && View() == FilterRun.Apply(old(View()), FilterRun.Up(mac, reply, rateReply))
    {
      hide AddId, DelId, MacUp, MacDown, RateAdd, RateDel, EntryOk;
      ghost var before := View();
      FilterRun.ApplyHealthy(before, FilterRun.Up(mac, reply, rateReply));
      var e, i := Obtain(mac);
      ghost var during := Views(entries);
      r := e.GoUp(kern, reply, rateReply);
      assert Views(entries) == during[i := e.View()];
      assert Views(entries) == FilterRun.Apply(before, FilterRun.Up(mac, reply, rateReply)).entries;
    }

    /** `ifilter_mac_down`. */
    method MacIsDown(mac: Mac, gone: bool, rateGone: bool)
      requires Valid()
      modifies this`entries, entries, kern
      ensures Valid() && View() == FilterRun.Apply(old(View()), FilterRun.Down(mac, gone, rateGone))
    {
      hide AddId, DelId, MacUp, MacDown, RateAdd, RateDel, EntryOk;
      ghost var before := View();
      FilterRun.ApplyHealthy(before, FilterRun.Down(mac, gone, rateGone));
      var i := Search(mac);
      if i < |entries| {
        var e := entries[i];
        e.GoDown(kern, gone, rateGone);
        assert Views(entries) == before.entries[i := e.View()];
      }
    }

    /** `rate_mac_add`. */
    method RateMacAdd(mac: Mac, speed: int, reply: int, gone: bool) returns (r: int)
      requires Valid()
      modifies this`entries, entries, kern
      ensures Valid() && View() == FilterRun.Apply(old(View()), FilterRun.SetRate(mac, speed, reply, gone))
    {
      hide AddId, DelId, MacUp, MacDown, RateAdd, RateDel, EntryOk;
      ghost var before := View();
      FilterRun.ApplyHealthy(before, FilterRun.SetRate(mac, speed, reply, gone));
      var e, i := Obtain(mac);
      ghost var during := Views(entries);
      r := e.SetRate(speed, kern, reply, gone);
      assert Views(entries) == during[i := e.View()];
      assert Views(entries) == FilterRun.Apply(before, FilterRun.SetRate(mac, speed, reply, gone)).entries;
    }

    /** `rate_mac_del`. */
    method RateMacDel(mac: Mac, gone: bool) returns (r: int)
      requires Valid()
      modifies this`entries, entries, kern
      ensures Valid() && View() == FilterRun.Apply(old(View()), FilterRun.DropRate(mac, gone))
    {
      hide AddId, DelId, MacUp, MacDown, RateAdd, RateDel, EntryOk;
      ghost var before := View();
      FilterRun.ApplyHealthy(before, FilterRun.DropRate(mac, gone));
      var i := Search(mac);
      if i < |entries| {
        var e := entries[i];
        r := e.EndRate(kern, gone);
        assert Views(entries) == before.entries[i := e.View()];
      } else {
        r := 0;
      }
    }
  }
}
