/** Per-MAC filter entries, the kernel's rule tables, and what each operation does to both. */
module FilterSpec {
  import opened Bytes

  const APP_RULE_MAX := 2048

  datatype Rate = Rate(flag: bool, speed: int, id: int)

  datatype Entry = Entry(mac: Mac, online: bool, apps: seq<int>, id: int, rate: Rate)

  datatype AppRule = AppRule(mac: Mac, apps: seq<int>)

  datatype RateRule = RateRule(mac: Mac, speed: int)

  /** Rules by identifier: all-traffic deny rules, application deny rules, rate rules. */
  datatype Kernel = Kernel(net: map<int, Mac>, app: map<int, AppRule>, rate: map<int, RateRule>)

  function NewEntry(mac: Mac): Entry {
    Entry(mac, false, [], 0, Rate(false, 0, 0))
  }

  // ---------- deny rules ----------

  function Clip(apps: seq<int>): (r: seq<int>) {
    if |apps| >= APP_RULE_MAX then apps[..APP_RULE_MAX] else apps
  }

  /** Registers the rule for `apps` when the MAC is online. `reply` is what the kernel answers: a
      rule identifier, or a number that is not positive. */
  function SetBlacklist(e: Entry, apps: seq<int>, k: Kernel, reply: int): (r: (Kernel, int))
    requires apps != []
  {
    if !e.online then (k, 0)
    else if reply <= 0 then (k, -1)
    else if apps[0] == 0 then (k.(net := k.net[reply := e.mac]), reply)
    else (k.(app := k.app[reply := AppRule(e.mac, Clip(apps))]), reply)
  }

  /** `gone` is whether the kernel deletes the rule; the program does not look. */
  function Clear(e: Entry, k: Kernel, gone: bool): (r: (Entry, Kernel)) {
    if !e.online || e.id <= 0 || e.apps == [] then (e, k)
    else if !gone then (e.(id := -1), k)
    else if e.apps[0] != 0 then (e.(id := -1), k.(app := k.app - {e.id}))
    else (e.(id := -1), k.(net := k.net - {e.id}))
  }

  /** Application 0, which means all traffic, stays in front. */
  function WithApp(apps: seq<int>, id: int): (r: seq<int>)
    ensures r != []
  {
    if apps != [] && apps[0] == 0 then [0, id] + apps[1..] else [id] + apps
  }

  function WithoutApp(apps: seq<int>, id: int): (r: seq<int>) {
    if apps == [] then []
    else
      var rest := WithoutApp(apps[..|apps| - 1], id);
      if apps[|apps| - 1] == id then rest else rest + [apps[|apps| - 1]]
  }

  ghost predicate NoDuplicates(apps: seq<int>) {
    forall i, j :: 0 <= i < j < |apps| ==> apps[i] != apps[j]
  }

  /** Removing an application leaves the others, each once and in their order. */
  lemma {:induction false} WithoutAppKeeps(apps: seq<int>, id: int)
    requires NoDuplicates(apps)
    ensures var r := WithoutApp(apps, id);
            && NoDuplicates(r) && (forall a :: a in r <==> a in apps && a != id)
            && |r| == (if id in apps then |apps| - 1 else |apps|)
            && (r != [] ==> r[0] == if apps[0] == id then apps[1] else apps[0])
  {
    if apps != [] {
      var n := |apps| - 1;
      WithoutAppKeeps(apps[..n], id);
      assert apps == apps[..n] + [apps[n]] && apps[n] !in apps[..n];
    }
  }

  function AddId(e: Entry, k: Kernel, id: int, reply: int, gone: bool): (r: (Entry, Kernel, int)) {
    if id in e.apps then (e, k, 0)
    else
      var apps := WithApp(e.apps, id);
      var (k1, setid) := SetBlacklist(e, apps, k, reply);
      if setid == -1 then (e, k1, -1)
      else
        var (e1, k2) := Clear(e, k1, gone);
        (e1.(apps := apps, id := setid), k2, 0)
  }

  /** The result of the registration is not looked at; the application number is compared with -1
      in its place. */
  function DelId(e: Entry, k: Kernel, id: int, reply: int, gone: bool): (r: (Entry, Kernel, int))
    requires NoDuplicates(e.apps)
  {
    if id !in e.apps then (e, k, 0)
    else if |e.apps| == 1 then
      var (e1, k1) := Clear(e, k, gone);
      (e1.(apps := [], id := 0), k1, 0)
    else
      var apps := WithoutApp(e.apps, id);
      WithoutAppKeeps(e.apps, id);
      var (k1, setid) := SetBlacklist(e, apps, k, reply);
      if id == -1 then (e, k1, -1)
      else
        var (e1, k2) := Clear(e, k1, gone);
        (e1.(apps := apps, id := setid), k2, 0)
  }

  // ---------- rate rules ----------

  /** `gone` is whether the kernel deletes the rule; if not, everything stays. */
  function RateDelData(e: Entry, k: Kernel, gone: bool): (r: (Entry, Kernel, int)) {
    if e.rate.id <= 0 then (e.(rate := Rate(false, 0, 0)), k, 0)
    else if !gone then (e, k, -1)
    else (e.(rate := Rate(false, 0, 0)), k.(rate := k.rate - {e.rate.id}), 0)
  }

  function RateAddData(e: Entry, k: Kernel, speed: int, reply: int): (r: (Entry, Kernel, int)) {
    if !e.online then (e.(rate := Rate(true, speed, 0)), k, 0)
    else if reply <= 0 then (e, k, -1)
    else (e.(rate := Rate(true, speed, reply)), k.(rate := k.rate[reply := RateRule(e.mac, speed)]), 0)
  }

  /** `rate_mac_add`: an old rule is deleted first, unless the speed is the same. */
  function RateAdd(e: Entry, k: Kernel, speed: int, reply: int, gone: bool): (r: (Entry, Kernel, int)) {
    if e.rate.flag && e.rate.speed == speed then (e, k, 0)
    else if e.rate.flag then
      var (e1, k1, deleted) := RateDelData(e, k, gone);
      if deleted < 0 then (e1, k1, -1) else RateAddData(e1, k1, speed, reply)
    else RateAddData(e, k, speed, reply)
  }

  /** `rate_mac_del`: a negative stored speed reads as "no rate". */
  function RateDel(e: Entry, k: Kernel, gone: bool): (r: (Entry, Kernel, int)) {
    if !e.rate.flag || e.rate.speed < 0 then (e, k, 0) else RateDelData(e, k, gone)
  }

  /** A deletion ends a rate exactly when the stored speed is not negative and the kernel deletes the
      rule, if there is one. */
  lemma RateDelEndsIff(e: Entry, k: Kernel, gone: bool)
    ensures !RateDel(e, k, gone).0.rate.flag <==>
            !e.rate.flag || (e.rate.speed >= 0 && (e.rate.id <= 0 || gone))
  {
  }

  // ---------- coming and going ----------

  function MacUp(e: Entry, k: Kernel, reply: int, rateReply: int): (r: (Entry, Kernel, int)) {
    if e.online then (e, k, 0)
    else
      var e1 := e.(online := true);
      var (k2, id) := if e1.apps == [] then (k, e1.id) else SetBlacklist(e1, e1.apps, k, reply);
      var e2 := e1.(id := id);
      if e1.apps != [] && id <= 0 then (e2, k2, -1)
      else if e2.rate.flag && e2.rate.id <= 0 then
        var (e3, k3, _) := RateAddData(e2, k2, e2.rate.speed, rateReply);
        (e3, k3, 0)
      else (e2, k2, 0)
  }

  /** The results of the deletions are not looked at. */
  function MacDown(e: Entry, k: Kernel, gone: bool, rateGone: bool): (r: (Entry, Kernel)) {
    if !e.online then (e, k)
    else
      var (e1, k1) := Clear(e, k, gone);
      var e2 := e1.(online := false);
      if e2.rate.id <= 0 then (e2, k1)
      else (e2.(rate := e2.rate.(id := 0)), if rateGone then k1.(rate := k1.rate - {e2.rate.id}) else k1)
  }

  // ---------- the mirror, one MAC at a time ----------

  ghost predicate EntryOk(e: Entry) {
    NoDuplicates(e.apps) && (0 in e.apps ==> e.apps[0] == 0)
  }

  predicate Denies(e: Entry) {
    e.online && e.apps != []
  }

  predicate DeniesAll(e: Entry) {
    Denies(e) && e.apps[0] == 0
  }

  predicate DeniesApps(e: Entry) {
    Denies(e) && e.apps[0] != 0
  }

  predicate Limits(e: Entry) {
    e.online && e.rate.flag
  }

  ghost predicate ExactDeny(e: Entry, k: Kernel) {
    && (forall id :: id in k.net && k.net[id] == e.mac <==> DeniesAll(e) && id == e.id)
    && (forall id :: id in k.app && k.app[id].mac == e.mac <==> DeniesApps(e) && id == e.id)
    && (DeniesApps(e) ==> k.app[e.id] == AppRule(e.mac, Clip(e.apps)))
    && (Denies(e) ==> e.id > 0)
  }

  ghost predicate ExactRate(e: Entry, k: Kernel) {
    && (forall id :: id in k.rate && k.rate[id].mac == e.mac <==> Limits(e) && id == e.rate.id)
    && (Limits(e) ==> k.rate[e.rate.id] == RateRule(e.mac, e.rate.speed))
    && (if Limits(e) then e.rate.id > 0 else e.rate.id <= 0)
  }

  /** The kernel holds for the MAC of `e` exactly the rules that `e` calls for, under the identifiers
      that `e` remembers. */
  ghost predicate Exact(e: Entry, k: Kernel) {
    ExactDeny(e, k) && ExactRate(e, k)
  }

  ghost predicate HasNet(k: Kernel, id: int, mac: Mac) {
    id in k.net && k.net[id] == mac
  }

  ghost predicate HasApp(k: Kernel, id: int, r: AppRule) {
    id in k.app && k.app[id] == r
  }

  ghost predicate HasRate(k: Kernel, id: int, r: RateRule) {
    id in k.rate && k.rate[id] == r
  }

  /** Rules of other MACs are the same in both. */
  ghost predicate OthersKept(k: Kernel, k': Kernel, mac: Mac) {
    && (forall id, m :: m != mac ==> (HasNet(k, id, m) <==> HasNet(k', id, m)))
    && (forall id, r: AppRule :: r.mac != mac ==> (HasApp(k, id, r) <==> HasApp(k', id, r)))
    && (forall id, r: RateRule :: r.mac != mac ==> (HasRate(k, id, r) <==> HasRate(k', id, r)))
  }

  /** The kernel grants a registration: a positive identifier not in use. */
  predicate Granted(k: Kernel, reply: int) {
    reply > 0 && reply !in k.net && reply !in k.app && reply !in k.rate
  }

  /** Whatever the kernel answers: a rate rule that cannot be deleted is kept in the record too. */
  lemma RateAddExact(e: Entry, k: Kernel, speed: int, reply: int, gone: bool)
    requires EntryOk(e) && Exact(e, k) && (reply > 0 ==> Granted(k, reply))
    ensures var (e', k', r) := RateAdd(e, k, speed, reply, gone);
            EntryOk(e') && Exact(e', k') && OthersKept(k, k', e.mac)
  {
  }

  lemma RateDelExact(e: Entry, k: Kernel, gone: bool)
    requires EntryOk(e) && Exact(e, k)
    ensures var (e', k', r) := RateDel(e, k, gone);
            EntryOk(e') && Exact(e', k') && OthersKept(k, k', e.mac)
  {
  }

  /** Going offline keeps the kernel exact unless a rule is not deleted. */
  predicate MacDownDiverges(e: Entry, gone: bool, rateGone: bool) {
    e.online && ((e.apps != [] && !gone) || (e.rate.flag && !rateGone))
  }

  lemma HasRule(e: Entry, k: Kernel)
    requires Exact(e, k) && Denies(e)
    ensures if e.apps[0] == 0 then e.id in k.net && k.net[e.id] == e.mac else e.id in k.app && k.app[e.id].mac == e.mac
  {
    assert DeniesAll(e) || DeniesApps(e);
  }

  lemma ClearDeny(e: Entry, k: Kernel, gone: bool)
    requires Exact(e, k) && e.online && e.apps != []
    ensures var (e1, k1) := Clear(e, k, gone);
            && (ExactDeny(e1.(online := false), k1) <==> gone)
            && OthersKept(k, k1, e.mac) && k1.rate == k.rate && e1 == e.(id := -1)
  {
    HasRule(e, k);
  }

  lemma DropLimit(e: Entry, k: Kernel, rateGone: bool)
    requires ExactRate(e, k) && e.online && e.rate.id > 0
    ensures var k1 := if rateGone then k.(rate := k.rate - {e.rate.id}) else k;
            && (ExactRate(e.(online := false, rate := e.rate.(id := 0)), k1) <==> rateGone)
            && OthersKept(k, k1, e.mac)
  {
  }

  /** No rule of a kind. */
  lemma DownNothing(e: Entry, k: Kernel)
    requires Exact(e, k) && e.online
    ensures e.apps == [] ==> ExactDeny(e.(online := false), k)
    ensures if e.rate.flag then e.rate.id > 0 else e.rate.id <= 0 && ExactRate(e.(online := false), k)
  {
  }

  lemma MacDownExactIff(e: Entry, k: Kernel, gone: bool, rateGone: bool)
    requires EntryOk(e) && Exact(e, k)
    ensures var (e', k') := MacDown(e, k, gone, rateGone);
            EntryOk(e') && OthersKept(k, k', e.mac) && (Exact(e', k') <==> !MacDownDiverges(e, gone, rateGone))
  {
    hide ExactDeny, ExactRate, OthersKept, Clear;
    OthersKeptSelf(k, e.mac);
    if e.online {
      DownNothing(e, k);
      var (e1, k1) := Clear(e, k, gone);
      if e.apps != [] {
        ClearDeny(e, k, gone);
      } else {
        ClearNothing(e, k, gone);
      }
      var e2 := e1.(online := false);
      RateIgnoresDeny(e, e1, k, k1);
      RateIgnoresDeny(e.(online := false), e2, k, k1);
      if e.rate.flag {
        DropLimit(e1, k1, rateGone);
        var k2 := if rateGone then k1.(rate := k1.rate - {e1.rate.id}) else k1;
        DenyIgnoresRate(e2, e2.(rate := e2.rate.(id := 0)), k1, k2);
        OthersKeptTwice(k, k1, k2, e.mac);
      }
    }
  }

  lemma ClearNothing(e: Entry, k: Kernel, gone: bool)
    requires e.apps == []
    ensures Clear(e, k, gone) == (e, k)
  {
  }

  /** Adding an application keeps the kernel exact unless the old rule is replaced and not deleted. */
  predicate AddIdDiverges(e: Entry, id: int, reply: int, gone: bool) {
    e.online && e.apps != [] && id !in e.apps && reply > 0 && !gone
  }

  // ---------- results ----------

  /** Adding an application fails exactly when it is new, the MAC online and the registration refused, and
      then changes nothing. */
  lemma AddIdResult(e: Entry, k: Kernel, id: int, reply: int, gone: bool)
    ensures var (e', k', r) := AddId(e, k, id, reply, gone);
      && (r == 0 || r == -1) && (r == -1 <==> id !in e.apps && e.online && reply <= 0)
      && (if r == 0 then id in e'.apps else e' == e && k' == k)
  {
    if id !in e.apps {
      assert id in WithApp(e.apps, id) by {
        assert WithApp(e.apps, id)[if e.apps != [] && e.apps[0] == 0 then 1 else 0] == id;
      }
    }
  }

  /** Deleting fails exactly for a listed application -1 that is not the only one. */
  lemma DelIdResult(e: Entry, k: Kernel, id: int, reply: int, gone: bool)
    requires NoDuplicates(e.apps)
    ensures var (e', k', r) := DelId(e, k, id, reply, gone);
      && (r == 0 || r == -1) && (r == -1 <==> id == -1 && id in e.apps && |e.apps| > 1)
      && (if r == 0 then id !in e'.apps else e' == e)
  {
    WithoutAppKeeps(e.apps, id);
  }

  lemma RateAddResult(e: Entry, k: Kernel, speed: int, reply: int, gone: bool)
    ensures var (e', k', r) := RateAdd(e, k, speed, reply, gone);
      && (r == 0 || r == -1) && (r == 0 ==> e'.rate.flag && e'.rate.speed == speed)
      && (r == -1 <==> !(e.rate.flag && e.rate.speed == speed)
                       && ((e.rate.flag && e.rate.id > 0 && !gone) || (e.online && reply <= 0)))
  {
  }

  lemma RateDelResult(e: Entry, k: Kernel, gone: bool)
    ensures var (e', k', r) := RateDel(e, k, gone);
      && (r == 0 || r == -1) && (r == -1 ==> e' == e && k' == k)
      && (r == -1 <==> e.rate.flag && e.rate.speed >= 0 && e.rate.id > 0 && !gone)
  {
  }

  /** Going online fails exactly when the deny rule is refused, and then no rate rule is registered either. */
  lemma MacUpResult(e: Entry, k: Kernel, reply: int, rateReply: int)
    ensures var (e', k', r) := MacUp(e, k, reply, rateReply);
      && (r == 0 || r == -1) && e'.online
      && (r == -1 <==> !e.online && e.apps != [] && reply <= 0)
      && (r == -1 ==> e'.rate == e.rate && k'.rate == k.rate)
  {
  }

  /** A new application is put in front, behind application 0 if that is there; deleting it again restores the
      list. */
  lemma AddThenDelete(apps: seq<int>, id: int)
    requires id !in apps
    ensures WithoutApp(WithApp(apps, id), id) == apps
    ensures var r := WithApp(apps, id); if apps != [] && apps[0] == 0 then r[0] == 0 && r[1] == id else r[0] == id
  {
    if apps != [] && apps[0] == 0 {
      WithoutConcat([0, id], apps[1..], id);
      WithoutAbsent(apps[1..], id);
      WithoutConcat([0], [id], id);
      WithoutAbsent([0], id);
      assert [id][..0] == [] && WithoutApp([id], id) == [] && [0] + [id] == [0, id] && [0] + [] == [0];
    } else {
      WithoutConcat([id], apps, id);
      WithoutAbsent(apps, id);
      assert [id][..0] == [] && [] + apps == apps;
    }
  }

  lemma {:induction false} WithoutConcat(a: seq<int>, b: seq<int>, id: int)
    ensures WithoutApp(a + b, id) == WithoutApp(a, id) + WithoutApp(b, id)
    decreases |b|
  {
    if b == [] {
      assert a + b == a;
    } else {
      var n := |b| - 1;
      WithoutConcat(a, b[..n], id);
      assert (a + b)[..|a + b| - 1] == a + b[..n];
    }
  }

  lemma {:induction false} WithoutAbsent(apps: seq<int>, id: int)
    requires id !in apps
    ensures WithoutApp(apps, id) == apps
  {
    if apps != [] {
      WithoutAbsent(apps[..|apps| - 1], id);
    }
  }

  // ---------- exactness ----------

  /** Deleting one keeps it exact unless the old rule is not deleted, or a new rule is needed and either
      its registration fails or the application number is -1. */
  predicate DelIdDiverges(e: Entry, id: int, reply: int, gone: bool) {
    e.online && id in e.apps && if |e.apps| == 1 then !gone else if id == -1 then reply > 0 else reply <= 0 || !gone
  }

  /** Registering the new rule and clearing the old one, both online. */
  lemma ReplaceExact(e: Entry, k: Kernel, apps: seq<int>, reply: int, gone: bool)
    requires Exact(e, k) && Denies(e) && apps != [] && Granted(k, reply)
    ensures
      var (k1, setid) := SetBlacklist(e, apps, k, reply);
      var (e1, k2) := Clear(e, k1, gone);
      var e' := e1.(apps := apps, id := setid);
      (Exact(e', k2) <==> gone) && OthersKept(k, k2, e.mac) && !Exact(e, k1) && OthersKept(k, k1, e.mac)
  {
    HasRule(e, k);
    var (k1, setid) := SetBlacklist(e, apps, k, reply);
    assert e.id != reply;
    assert if e.apps[0] == 0 then e.id in k1.net && k1.net[e.id] == e.mac
           else e.id in k1.app && k1.app[e.id].mac == e.mac;
    assert if apps[0] == 0 then reply in k1.net else reply in k1.app;
  }

  lemma FirstExact(e: Entry, k: Kernel, apps: seq<int>, reply: int)
    requires Exact(e, k) && e.online && e.apps == [] && apps != [] && Granted(k, reply)
    ensures
      var (k1, setid) := SetBlacklist(e, apps, k, reply);
      Exact(e.(apps := apps, id := setid), k1) && OthersKept(k, k1, e.mac)
  {
  }

  lemma LoseRule(e: Entry, k: Kernel, apps: seq<int>, gone: bool)
    requires Exact(e, k) && Denies(e) && apps != []
    ensures var (e1, k2) := Clear(e, k, gone);
            !Exact(e1.(apps := apps, id := -1), k2) && OthersKept(k, k2, e.mac)
  {
  }

  lemma OfflineExact(e: Entry, k: Kernel, apps: seq<int>, id: int)
    requires Exact(e, k) && !Denies(e) && (e.online ==> apps == [])
    ensures Exact(e.(apps := apps, id := id), k)
  {
  }

  lemma ClearLast(e: Entry, k: Kernel, gone: bool)
    requires Exact(e, k) && e.apps != []
    ensures var (e1, k1) := Clear(e, k, gone);
            (Exact(e1.(apps := [], id := 0), k1) <==> !e.online || gone) && OthersKept(k, k1, e.mac)
  {
    if e.online {
      HasRule(e, k);
    }
  }

  lemma AddIdExactIff(e: Entry, k: Kernel, id: int, reply: int, gone: bool)
    requires EntryOk(e) && Exact(e, k) && (reply > 0 ==> Granted(k, reply))
    ensures var (e', k', r) := AddId(e, k, id, reply, gone);
            EntryOk(e') && OthersKept(k, k', e.mac) && (Exact(e', k') <==> !AddIdDiverges(e, id, reply, gone))
  {
    hide ExactDeny, ExactRate, OthersKept, Granted;
    OthersKeptSelf(k, e.mac);
    var apps := WithApp(e.apps, id);
    if id !in e.apps {
      if !e.online {
        OfflineExact(e, k, apps, 0);
      } else if reply > 0 {
        if e.apps == [] {
          FirstExact(e, k, apps, reply);
        } else {
          ReplaceExact(e, k, apps, reply, gone);
        }
      }
    }
  }

  lemma DelIdExactIff(e: Entry, k: Kernel, id: int, reply: int, gone: bool)
    requires EntryOk(e) && Exact(e, k) && (reply > 0 ==> Granted(k, reply))
    ensures var (e', k', r) := DelId(e, k, id, reply, gone);
            EntryOk(e') && OthersKept(k, k', e.mac) && (Exact(e', k') <==> !DelIdDiverges(e, id, reply, gone))
  {
    hide ExactDeny, ExactRate, OthersKept, Granted;
    OthersKeptSelf(k, e.mac);
    if id in e.apps {
      var apps := WithoutApp(e.apps, id);
      WithoutAppKeeps(e.apps, id);
      if |e.apps| == 1 {
        ClearLast(e, k, gone);
      } else if !e.online {
        OfflineExact(e, k, apps, 0);
      } else if reply <= 0 {
        LoseRule(e, k, apps, gone);
      } else {
        ReplaceExact(e, k, apps, reply, gone);
      }
    }
  }

  lemma OthersKeptSelf(k: Kernel, mac: Mac)
    ensures OthersKept(k, k, mac)
  {
  }

  /** Coming online keeps the kernel exact unless a rule it needs cannot be registered. */
  predicate MacUpDiverges(e: Entry, reply: int, rateReply: int) {
    !e.online && ((e.apps != [] && reply <= 0) || (e.rate.flag && rateReply <= 0))
  }

  lemma UpDeny(e: Entry, k: Kernel, reply: int)
    requires Exact(e, k) && !e.online && e.apps != [] && (reply > 0 ==> Granted(k, reply))
    ensures
      var (k1, id) := SetBlacklist(e.(online := true), e.apps, k, reply);
      && (ExactDeny(e.(online := true, id := id), k1) <==> reply > 0)
      && OthersKept(k, k1, e.mac) && k1.rate == k.rate
  {
  }

  lemma UpRate(e: Entry, k: Kernel, reply: int)
    requires ExactRate(e.(online := false), k) && e.online && e.rate.flag && (reply > 0 ==> reply !in k.rate)
    ensures
      var (e1, k1, _) := RateAddData(e, k, e.rate.speed, reply);
      && (ExactRate(e1, k1) <==> reply > 0)
      && OthersKept(k, k1, e.mac) && k1.net == k.net && k1.app == k.app && e1 == e.(rate := e1.rate)
  {
  }

  /** Nothing of a kind to register. */
  lemma UpNothing(e: Entry, k: Kernel)
    requires Exact(e, k) && !e.online
    ensures e.apps == [] ==> ExactDeny(e.(online := true), k)
    ensures ExactRate(e.(online := true), k) <==> !e.rate.flag
  {
  }

  lemma RateIgnoresDeny(e: Entry, f: Entry, k: Kernel, k': Kernel)
    requires f == e.(id := f.id) && k'.rate == k.rate
    ensures ExactRate(e, k) <==> ExactRate(f, k')
  {
  }

  lemma DenyIgnoresRate(e: Entry, f: Entry, k: Kernel, k': Kernel)
    requires f == e.(rate := f.rate) && k'.net == k.net && k'.app == k.app
    ensures ExactDeny(e, k) <==> ExactDeny(f, k')
  {
  }

  lemma OthersKeptTwice(k: Kernel, k1: Kernel, k2: Kernel, mac: Mac)
    requires OthersKept(k, k1, mac) && OthersKept(k1, k2, mac)
    ensures OthersKept(k, k2, mac)
  {
  }

  lemma MacUpExactIff(e: Entry, k: Kernel, reply: int, rateReply: int)
    requires EntryOk(e) && Exact(e, k) && (reply > 0 ==> Granted(k, reply)) && (rateReply > 0 ==> Granted(k, rateReply))
    ensures var (e', k', r) := MacUp(e, k, reply, rateReply);
            EntryOk(e') && OthersKept(k, k', e.mac) && (Exact(e', k') <==> !MacUpDiverges(e, reply, rateReply))
  {
    hide ExactDeny, ExactRate, OthersKept;
    OthersKeptSelf(k, e.mac);
    if !e.online {
      var e1 := e.(online := true);
      UpNothing(e, k);
      assert e.rate.id <= 0 by { RateIdGone(e, k); }
      if e.apps != [] {
        UpDeny(e, k, reply);
      }
      var (k2, id) := if e1.apps == [] then (k, e1.id) else SetBlacklist(e1, e1.apps, k, reply);
      var e2 := e1.(id := id);
      RateIgnoresDeny(e1, e2, k, k2);
      RateIgnoresDeny(e, e2.(online := false), k, k2);
      if e.rate.flag && (e.apps == [] || reply > 0) {
        UpRate(e2, k2, rateReply);
        var (e3, k3, _) := RateAddData(e2, k2, e2.rate.speed, rateReply);
        DenyIgnoresRate(e2, e3, k2, k3);
        OthersKeptTwice(k, k2, k3, e.mac);
      }
    }
  }

  lemma RateIdGone(e: Entry, k: Kernel)
    requires Exact(e, k) && !e.online
    ensures e.rate.id <= 0
  {
  }
}
