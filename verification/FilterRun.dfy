/** Whole runs of the filter list: the kernel's rules are those the history of calls asks for. */
module FilterRun {
  import opened Bytes
  import opened FilterSpec

  /** The list, newest entry first, and the kernel. */
  datatype State = State(entries: seq<Entry>, k: Kernel)

  /** A call, with what the kernel answers to a registration and whether it deletes a rule. */
  datatype Op =
    | Add(mac: Mac, app: int, reply: int, gone: bool)
    | Del(mac: Mac, app: int, reply: int, gone: bool)
    | Up(mac: Mac, reply: int, rateReply: int)
    | Down(mac: Mac, gone: bool, rateGone: bool)
    | SetRate(mac: Mac, speed: int, reply: int, gone: bool)
    | DropRate(mac: Mac, gone: bool)

  /** The operations that make an entry for a MAC they do not find. */
  predicate Creates(op: Op) {
    op.Add? || op.Up? || op.SetRate?
  }

  function Find(entries: seq<Entry>, mac: Mac): (i: nat)
    ensures i <= |entries| && (i < |entries| ==> entries[i].mac == mac)
    ensures forall j :: 0 <= j < i ==> entries[j].mac != mac
  {
    if entries == [] || entries[0].mac == mac then 0 else 1 + Find(entries[1..], mac)
  }

  function EntryStep(e: Entry, k: Kernel, op: Op): (r: (Entry, Kernel))
    requires NoDuplicates(e.apps)
  {
    match op
    case Add(_, app, reply, gone) => var (e', k', _) := AddId(e, k, app, reply, gone); (e', k')
    case Del(_, app, reply, gone) => var (e', k', _) := DelId(e, k, app, reply, gone); (e', k')
    case Up(_, reply, rateReply) => var (e', k', _) := MacUp(e, k, reply, rateReply); (e', k')
    case Down(_, gone, rateGone) => MacDown(e, k, gone, rateGone)
    case SetRate(_, speed, reply, gone) => var (e', k', _) := RateAdd(e, k, speed, reply, gone); (e', k')
    case DropRate(_, gone) => var (e', k', _) := RateDel(e, k, gone); (e', k')
  }

  ghost predicate Healthy(s: State) {
    forall i :: 0 <= i < |s.entries| ==> EntryOk(s.entries[i])
  }

  ghost function Apply(s: State, op: Op): (r: State)
    requires Healthy(s)
  {
    var i := Find(s.entries, op.mac);
    if i < |s.entries| then
      var (e, k) := EntryStep(s.entries[i], s.k, op);
      State(s.entries[i := e], k)
    else if Creates(op) then
      var (e, k) := EntryStep(NewEntry(op.mac), s.k, op);
      State([e] + s.entries, k)
    else s
  }

  /** Every registration and deletion of a rule succeeds, and no call deletes "application -1". */
  predicate Succeeds(k: Kernel, op: Op) {
    match op
    case Add(_, _, reply, gone) => Granted(k, reply) && gone
    case Del(_, app, reply, gone) => Granted(k, reply) && gone && app != -1
    case Up(_, reply, rateReply) => Granted(k, reply) && Granted(k, rateReply)
    case Down(_, gone, rateGone) => gone && rateGone
    case SetRate(_, _, reply, gone) => Granted(k, reply) && gone
    case DropRate(_, gone) => gone
  }

  /** No negative speed is set: the program would not drop it again. */
  predicate NotNegative(op: Op) {
    op.SetRate? ==> op.speed >= 0
  }

  // ---------- what the history asks for ----------

  datatype Want = Want(online: bool, apps: set<int>, speed: Option<int>)

  const NOTHING := Want(false, {}, None)

  type Wants = map<Mac, Want>

  function WantOf(d: Wants, mac: Mac): Want {
    if mac in d then d[mac] else NOTHING
  }

  function WantStep(w: Want, op: Op): Want {
    match op
    case Add(_, app, _, _) => w.(apps := w.apps + {app})
    case Del(_, app, _, _) => w.(apps := w.apps - {app})
    case Up(_, _, _) => w.(online := true)
    case Down(_, _, _) => w.(online := false)
    case SetRate(_, speed, _, _) => w.(speed := Some(speed))
    case DropRate(_, _) => w.(speed := None)
  }

  function Wanted(d: Wants, op: Op): Wants {
    d[op.mac := WantStep(WantOf(d, op.mac), op)]
  }

  // ---------- what the kernel has to hold for it ----------

  ghost predicate NetIds(k: Kernel, mac: Mac, ids: set<int>) {
    forall id :: HasNet(k, id, mac) <==> id in ids
  }

  ghost predicate AppIds(k: Kernel, mac: Mac, ids: set<int>) {
    forall id :: id in k.app && k.app[id].mac == mac <==> id in ids
  }

  ghost predicate RateIds(k: Kernel, mac: Mac, ids: set<int>) {
    forall id :: id in k.rate && k.rate[id].mac == mac <==> id in ids
  }

  function Elements(apps: seq<int>): (r: set<int>) {
    set a | a in apps
  }

  /** Exactly one deny rule of the right kind for an online MAC with applications, none otherwise. An
      application rule names only wanted applications, and all of them exactly up to the limit. */
  ghost predicate DenyMatches(k: Kernel, mac: Mac, w: Want) {
    if !w.online || w.apps == {} then NetIds(k, mac, {}) && AppIds(k, mac, {})
    else if 0 in w.apps then (exists id :: NetIds(k, mac, {id})) && AppIds(k, mac, {})
    else
      && NetIds(k, mac, {})
      && exists id :: AppIds(k, mac, {id}) && id in k.app
           && Elements(k.app[id].apps) <= w.apps
           && (Elements(k.app[id].apps) == w.apps <==> |w.apps| <= 2048)
  }

  /** Exactly one rate rule, at the wanted speed, for an online MAC with a rate, none otherwise. */
  ghost predicate RateMatches(k: Kernel, mac: Mac, w: Want) {
    if !w.online || w.speed == None then RateIds(k, mac, {})
    else exists id :: RateIds(k, mac, {id}) && id in k.rate && k.rate[id].speed == w.speed.value
  }

  ghost predicate KernelMatches(k: Kernel, d: Wants) {
    forall mac :: DenyMatches(k, mac, WantOf(d, mac)) && RateMatches(k, mac, WantOf(d, mac))
  }

  // ---------- the invariant ----------

  function WantEntry(e: Entry): Want {
    Want(e.online, Elements(e.apps), if e.rate.flag then Some(e.rate.speed) else None)
  }

  ghost predicate Listed(entries: seq<Entry>, mac: Mac) {
    exists i :: 0 <= i < |entries| && entries[i].mac == mac
  }

  /** A stored rate is not negative. */
  predicate Limited(e: Entry) {
    e.rate.flag ==> e.rate.speed >= 0
  }

  /** Each MAC has one entry at most, each entry is exact and stands for what is wanted of its MAC,
      and no rule is for a MAC without an entry. */
  ghost predicate Mirrors(s: State, d: Wants) {
    && (forall i, j :: 0 <= i < j < |s.entries| ==> s.entries[i].mac != s.entries[j].mac)
    && (forall i :: 0 <= i < |s.entries| ==> EntryOk(s.entries[i]) && Exact(s.entries[i], s.k))
    && (forall i :: 0 <= i < |s.entries| ==> WantOf(d, s.entries[i].mac) == WantEntry(s.entries[i]))
    && (forall i :: 0 <= i < |s.entries| ==> Limited(s.entries[i]))
    && (forall m :: !Listed(s.entries, m) ==> NoRules(s.k, m) && WantOf(d, m) == NOTHING)
  }

  ghost predicate NoRules(k: Kernel, mac: Mac) {
    NetIds(k, mac, {}) && AppIds(k, mac, {}) && RateIds(k, mac, {})
  }

  // ---------- one entry ----------

  lemma EntryStepExact(e: Entry, k: Kernel, op: Op)
    requires EntryOk(e) && Exact(e, k) && Succeeds(k, op)
    ensures var (e', k') := EntryStep(e, k, op);
            EntryOk(e') && Exact(e', k') && OthersKept(k, k', e.mac) && e'.mac == e.mac
  {
    hide Exact, OthersKept, EntryOk;
    match op
    case Add(_, app, reply, gone) => AddIdExactIff(e, k, app, reply, gone);
    case Del(_, app, reply, gone) => DelIdExactIff(e, k, app, reply, gone);
    case Up(_, reply, rateReply) => MacUpExactIff(e, k, reply, rateReply);
    case Down(_, gone, rateGone) => MacDownExactIff(e, k, gone, rateGone);
    case SetRate(_, speed, reply, gone) => RateAddExact(e, k, speed, reply, gone);
    case DropRate(_, gone) => RateDelExact(e, k, gone);
  }

  /** When nothing fails, an entry becomes what the call asks for, except exactly in dropping a negative
      rate. */
  lemma EntryStepWantsIff(e: Entry, k: Kernel, op: Op)
    requires EntryOk(e) && Exact(e, k) && Succeeds(k, op)
    ensures WantEntry(EntryStep(e, k, op).0) == WantStep(WantEntry(e), op) <==> !op.DropRate? || Limited(e)
    ensures Limited(e) && NotNegative(op) ==> Limited(EntryStep(e, k, op).0)
  {
    hide Exact;
    match op
    case Add(_, app, _, _) =>
      var apps := WithApp(e.apps, app);
      if app in e.apps {
        assert Elements(e.apps) + {app} == Elements(e.apps);
      } else {
        assert forall a :: a in apps <==> a == app || a in e.apps by {
          WithAppAdds(e.apps, app);
        }
        assert Elements(apps) == Elements(e.apps) + {app};
      }
    case Del(_, app, _, _) =>
      WithoutAppKeeps(e.apps, app);
      if app !in e.apps {
        assert Elements(e.apps) - {app} == Elements(e.apps);
      } else if |e.apps| == 1 {
        assert Elements(e.apps) == {app};
      } else {
        assert Elements(WithoutApp(e.apps, app)) == Elements(e.apps) - {app};
      }
    case _ =>
  }

  lemma WithAppAdds(apps: seq<int>, app: int)
    ensures forall a :: a in WithApp(apps, app) <==> a == app || a in apps
  {
    if apps != [] {
      assert apps == [apps[0]] + apps[1..];
    }
  }

  lemma NewEntryExact(mac: Mac, k: Kernel)
    requires NoRules(k, mac)
    ensures EntryOk(NewEntry(mac)) && Exact(NewEntry(mac), k) && WantEntry(NewEntry(mac)) == NOTHING
  {
    assert forall id :: id in k.net ==> !HasNet(k, id, mac);
  }

  lemma EntryStepOk(e: Entry, k: Kernel, op: Op)
    requires EntryOk(e)
    ensures EntryOk(EntryStep(e, k, op).0)
  {
    if op.Del? {
      WithoutAppKeeps(e.apps, op.app);
    }
  }

  lemma ApplyHealthy(s: State, op: Op)
    requires Healthy(s)
    ensures Healthy(Apply(s, op))
  {
    hide EntryOk, EntryStep;
    var i := Find(s.entries, op.mac);
    if i < |s.entries| {
      EntryStepOk(s.entries[i], s.k, op);
    } else if Creates(op) {
      NewEntryOk(op.mac);
      EntryStepOk(NewEntry(op.mac), s.k, op);
    }
  }

  lemma NewEntryOk(mac: Mac)
    ensures EntryOk(NewEntry(mac))
  {
  }

  // ---------- the whole list ----------

  lemma OthersStayExact(f: Entry, k: Kernel, k': Kernel, mac: Mac)
    requires Exact(f, k) && OthersKept(k, k', mac) && f.mac != mac
    ensures Exact(f, k')
  {
    forall id
      ensures id in k'.net && k'.net[id] == f.mac <==> DeniesAll(f) && id == f.id
    {
      assert HasNet(k, id, f.mac) <==> HasNet(k', id, f.mac);
    }
    forall id
      ensures id in k'.app && k'.app[id].mac == f.mac <==> id in k.app && k.app[id].mac == f.mac
      ensures id in k'.app && k'.app[id].mac == f.mac ==> k'.app[id] == k.app[id]
    {
      assert id in k.app ==> HasApp(k, id, k.app[id]);
      assert id in k'.app ==> HasApp(k', id, k'.app[id]);
    }
    forall id
      ensures id in k'.rate && k'.rate[id].mac == f.mac <==> id in k.rate && k.rate[id].mac == f.mac
      ensures id in k'.rate && k'.rate[id].mac == f.mac ==> k'.rate[id] == k.rate[id]
    {
      assert id in k.rate ==> HasRate(k, id, k.rate[id]);
      assert id in k'.rate ==> HasRate(k', id, k'.rate[id]);
    }
  }

  lemma OthersStayWithoutRules(k: Kernel, k': Kernel, mac: Mac, m: Mac)
    requires NoRules(k, m) && OthersKept(k, k', mac) && m != mac
    ensures NoRules(k', m)
  {
    forall id
      ensures !HasNet(k', id, m) && !(id in k'.app && k'.app[id].mac == m) && !(id in k'.rate && k'.rate[id].mac == m)
    {
      assert HasNet(k, id, m) <==> HasNet(k', id, m);
      assert id in k'.app ==> HasApp(k', id, k'.app[id]);
      assert id in k'.rate ==> HasRate(k', id, k'.rate[id]);
    }
  }

  lemma ReplaceKeepsMirror(s: State, d: Wants, op: Op, i: nat, e: Entry, k: Kernel)
    requires Mirrors(s, d) && i < |s.entries| && s.entries[i].mac == op.mac == e.mac
    requires EntryOk(e) && Exact(e, k) && OthersKept(s.k, k, op.mac)
    requires WantEntry(e) == WantStep(WantEntry(s.entries[i]), op) && Limited(e)
    ensures Mirrors(State(s.entries[i := e], k), Wanted(d, op))
  {
    hide Exact, OthersKept, NoRules, WantStep, EntryOk;
    var es := s.entries[i := e];
    assert forall j :: 0 <= j < |es| ==> es[j].mac == s.entries[j].mac;
    forall j | 0 <= j < |es| && j != i
      ensures Exact(es[j], k)
    {
      OthersStayExact(s.entries[j], s.k, k, op.mac);
    }
    forall m | !Listed(es, m)
      ensures NoRules(k, m) && WantOf(Wanted(d, op), m) == NOTHING
    {
      assert es[i].mac == op.mac;
      forall j | 0 <= j < |s.entries|
        ensures s.entries[j].mac != m
      {
        assert es[j].mac == s.entries[j].mac;
      }
      OthersStayWithoutRules(s.k, k, op.mac, m);
    }
  }

  lemma InsertKeepsMirror(s: State, d: Wants, op: Op, e: Entry, k: Kernel)
    requires Mirrors(s, d) && !Listed(s.entries, op.mac) && e.mac == op.mac
    requires EntryOk(e) && Exact(e, k) && OthersKept(s.k, k, op.mac)
    requires WantEntry(e) == WantStep(NOTHING, op) && Limited(e)
    ensures Mirrors(State([e] + s.entries, k), Wanted(d, op))
  {
    hide Exact, OthersKept, NoRules, WantStep, EntryOk;
    var es := [e] + s.entries;
    assert forall j :: 1 <= j < |es| ==> es[j] == s.entries[j - 1];
    forall j | 1 <= j < |es|
      ensures Exact(es[j], k) && es[j].mac != op.mac
    {
      OthersStayExact(s.entries[j - 1], s.k, k, op.mac);
    }
    forall m | !Listed(es, m)
      ensures NoRules(k, m) && WantOf(Wanted(d, op), m) == NOTHING
    {
      assert es[0].mac == op.mac;
      forall j | 0 <= j < |s.entries|
        ensures s.entries[j].mac != m
      {
        assert es[j + 1].mac == s.entries[j].mac;
      }
      OthersStayWithoutRules(s.k, k, op.mac, m);
    }
  }

  /** One call, on a list that mirrors what is wanted. */
  lemma ApplyKeepsMirror(s: State, d: Wants, op: Op)
    requires Mirrors(s, d) && Succeeds(s.k, op) && NotNegative(op)
    ensures Mirrors(Apply(s, op), Wanted(d, op))
  {
    hide Exact, OthersKept, NoRules, WantStep, EntryStep;
    var i := Find(s.entries, op.mac);
    if i < |s.entries| {
      var e := s.entries[i];
      EntryStepExact(e, s.k, op);
      EntryStepWantsIff(e, s.k, op);
      var (e', k') := EntryStep(e, s.k, op);
      ReplaceKeepsMirror(s, d, op, i, e', k');
    } else {
      assert !Listed(s.entries, op.mac);
      if Creates(op) {
        NewEntryExact(op.mac, s.k);
        var e := NewEntry(op.mac);
        EntryStepExact(e, s.k, op);
        EntryStepWantsIff(e, s.k, op);
        var (e', k') := EntryStep(e, s.k, op);
        InsertKeepsMirror(s, d, op, e', k');
      } else {
        NothingStays(op);
        forall m
          ensures WantOf(Wanted(d, op), m) == WantOf(d, m)
        {
        }
      }
    }
  }

  lemma NothingStays(op: Op)
    requires !Creates(op)
    ensures WantStep(NOTHING, op) == NOTHING
  {
  }

  // ---------- every run ----------

  const EMPTY := State([], Kernel(map[], map[], map[]))

  ghost predicate IsRun(ss: seq<State>, ops: seq<Op>) {
    && |ss| == |ops| + 1 && ss[0] == EMPTY
    && forall i :: 0 <= i < |ops| ==>
         Healthy(ss[i]) && Succeeds(ss[i].k, ops[i]) && ss[i + 1] == Apply(ss[i], ops[i])
  }

  ghost predicate NoneNegative(ops: seq<Op>) {
    forall i :: 0 <= i < |ops| ==> NotNegative(ops[i])
  }

  function History(ops: seq<Op>): Wants {
    if ops == [] then map[] else Wanted(History(ops[..|ops| - 1]), ops[|ops| - 1])
  }

  lemma {:induction false} RunMirrors(ss: seq<State>, ops: seq<Op>)
    requires IsRun(ss, ops) && NoneNegative(ops)
    ensures Mirrors(ss[|ops|], History(ops))
    decreases |ops|
  {
    hide Exact, OthersKept, EntryStep, EntryOk;
    if |ops| > 0 {
      var n := |ops| - 1;
      RunMirrors(ss[..n + 1], ops[..n]);
      assert ss[n + 1] == Apply(ss[n], ops[n]);
      ApplyKeepsMirror(ss[n], History(ops[..n]), ops[n]);
    }
  }

  // ---------- from exact entries to exact rules ----------

  lemma {:induction false} DistinctCount(apps: seq<int>)
    requires NoDuplicates(apps)
    ensures |Elements(apps)| == |apps|
  {
    if apps != [] {
      var n := |apps| - 1;
      DistinctCount(apps[..n]);
      assert Elements(apps) == Elements(apps[..n]) + {apps[n]};
      assert apps[n] !in apps[..n];
    }
  }

  /** A clipped list has the first applications, and all of them exactly up to the limit. */
  lemma ClipComplete(apps: seq<int>)
    requires NoDuplicates(apps)
    ensures Elements(Clip(apps)) <= Elements(apps)
    ensures Elements(Clip(apps)) == Elements(apps) <==> |Elements(apps)| <= 2048
    ensures Clip(apps) <= apps && |Clip(apps)| <= 2048
  {
    DistinctCount(apps);
    DistinctCount(Clip(apps));
  }

  lemma ExactEntryMatches(e: Entry, k: Kernel)
    requires EntryOk(e) && Exact(e, k)
    ensures DenyMatches(k, e.mac, WantEntry(e)) && RateMatches(k, e.mac, WantEntry(e))
  {
    ClipComplete(e.apps);
    if e.apps != [] {
      assert e.apps[0] in Elements(e.apps);
    }
    if DeniesAll(e) {
      assert NetIds(k, e.mac, {e.id});
    } else if DeniesApps(e) {
      assert AppIds(k, e.mac, {e.id});
    }
    if Limits(e) {
      assert RateIds(k, e.mac, {e.rate.id});
    }
  }

  /** After any calls whose registrations and deletions succeed, the kernel holds exactly the rules the calls ask
      for: one deny rule of the right kind and contents for each online MAC with applications, one
      rate rule at the last speed for each online MAC with a rate, and nothing else. */
  lemma KernelMatchesHistory(ss: seq<State>, ops: seq<Op>)
    requires IsRun(ss, ops) && NoneNegative(ops)
    ensures KernelMatches(ss[|ops|].k, History(ops))
  {
    RunMirrors(ss, ops);
    var s, d := ss[|ops|], History(ops);
    forall mac
      ensures DenyMatches(s.k, mac, WantOf(d, mac)) && RateMatches(s.k, mac, WantOf(d, mac))
    {
      hide Exact, DenyMatches, RateMatches, EntryOk;
      if Listed(s.entries, mac) {
        var i :| 0 <= i < |s.entries| && s.entries[i].mac == mac;
        ExactEntryMatches(s.entries[i], s.k);
      } else {
        NothingMatches(s.k, mac);
      }
    }
  }

  lemma NothingMatches(k: Kernel, mac: Mac)
    requires NoRules(k, mac)
    ensures DenyMatches(k, mac, NOTHING) && RateMatches(k, mac, NOTHING)
  {
  }

  /** Without the restriction to speeds that are not negative the kernel need not match: after setting a
      negative speed and dropping it the rate rule is still there. */
  lemma NegativeSpeedStays(mac: Mac, speed: int) returns (ss: seq<State>, ops: seq<Op>)
    requires speed < 0
    ensures ops == [Up(mac, 1, 2), SetRate(mac, speed, 3, true), DropRate(mac, true)]
    ensures IsRun(ss, ops) && !KernelMatches(ss[|ops|].k, History(ops))
  {
    ops := [Up(mac, 1, 2), SetRate(mac, speed, 3, true), DropRate(mac, true)];
    var s1 := Apply(EMPTY, ops[0]);
    var s2 := Apply(s1, ops[1]);
    ss := [EMPTY, s1, s2, s2];
    assert s2.k.rate == map[3 := RateRule(mac, speed)];
    assert History(ops) == Wanted(History(ops[..2]), ops[2]) && WantOf(History(ops), mac).speed == None;
    assert 3 in s2.k.rate && s2.k.rate[3].mac == mac;
    assert !RateMatches(s2.k, mac, WantOf(History(ops), mac));
  }
}
