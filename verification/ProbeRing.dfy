/** The ring of probed MACs: the most recent ones, each once. */
module ProbeRing {
  import opened Bytes

  const PROBE_MX := 64

  /** The MACs reported, oldest first, no more than the ring holds. */
  function Reported(recent: seq<Mac>, mac: Mac, connected: bool): (r: seq<Mac>)
  {
    if mac in recent || connected then recent
    else if |recent| < PROBE_MX then recent + [mac]
    else recent[1..] + [mac]
  }

  /** The ring read from its oldest cell to `index`. */
  function Unrolled(cells: seq<Mac>, nr: nat, index: nat): (r: seq<Mac>)
    requires |cells| == PROBE_MX && nr <= PROBE_MX && index < PROBE_MX
  {
    if nr < PROBE_MX then cells[..nr] else cells[index + 1..] + cells[..index + 1]
  }

  class Ring {
    const cells: array<Mac>
    var nr: nat
    var index: nat
    /** `g_probe_num`, modulo 2^32. */
    var reports: nat

    ghost predicate Valid()
      reads this, cells
    {
      && cells.Length == PROBE_MX && nr <= PROBE_MX && index < PROBE_MX
      && (if nr == 0 then index == 0 else if nr < PROBE_MX then index == nr - 1 else true)
    }

    function Recent(): seq<Mac>
      requires Valid()
      reads this, cells
    {
      Unrolled(cells[..], nr, index)
    }

    constructor ()
      ensures Valid() && Recent() == []
    {
      cells := new Mac[PROBE_MX](_ => 0);
      nr, index, reports := 0, 0, 0;
    }

    /** `connected` is what the search for the MAC among the connected wireless hosts finds. */
    method Save(mac: Mac, connected: bool)
      requires Valid()
      modifies this, cells
      ensures Valid() && Recent() == Reported(old(Recent()), mac, connected)
      ensures reports == if Recent() == old(Recent()) then old(reports) else (old(reports) + 1) % 0x1_0000_0000
    {
      for i := 0 to nr
        invariant mac !in cells[..i]
      {
        if cells[i] == mac {
          assert mac in Recent() by { InRing(cells[..], nr, index, i); }
          return;
        }
      }
      assert mac !in Recent() by { NotInRing(cells[..], nr, index, mac); }
      if connected {
        return;
      }
      if nr != 0 {
        index := index + 1;
        if index >= PROBE_MX {
          index := 0;
        }
      }
      if nr < PROBE_MX {
        nr := nr + 1;
      }
      reports := (reports + 1) % 0x1_0000_0000;
      OverwriteOldest(cells[..], old(nr), old(index), mac);
      ghost var before := cells[..];
      cells[index] := mac;
      assert cells[..] == before[index := mac];
    }
  }

  /** Writing one cell further appends the MAC and drops the oldest of a full ring. */
  lemma OverwriteOldest(cells: seq<Mac>, nr: nat, index: nat, mac: Mac)
    requires |cells| == PROBE_MX && nr <= PROBE_MX && index < PROBE_MX
    requires if nr == 0 then index == 0 else if nr < PROBE_MX then index == nr - 1 else true
    ensures
      var recent := Unrolled(cells, nr, index);
      var index' := if nr == 0 then index else if index + 1 >= PROBE_MX then 0 else index + 1;
      var nr' := if nr < PROBE_MX then nr + 1 else nr;
      Unrolled(cells[index' := mac], nr', index')
      == (if |recent| < PROBE_MX then recent + [mac] else recent[1..] + [mac])
  {
    var index' := if nr == 0 then index else if index + 1 >= PROBE_MX then 0 else index + 1;
    var after := cells[index' := mac];
    if nr < PROBE_MX {
      assert after[..nr + 1] == cells[..nr] + [mac];
      if nr + 1 == PROBE_MX {
        assert after[index' + 1..] + after[..index' + 1] == after[..nr + 1];
      }
    } else if index + 1 >= PROBE_MX {
      assert after[1..] + after[..1] == cells[1..] + [mac];
    } else {
      assert after[index' + 1..] == cells[index' + 1..];
      assert after[..index' + 1] == cells[..index + 1] + [mac];
    }
  }

  lemma InRing(cells: seq<Mac>, nr: nat, index: nat, i: nat)
    requires |cells| == PROBE_MX && i < nr <= PROBE_MX && index < PROBE_MX
    ensures cells[i] in Unrolled(cells, nr, index)
  {
  }

  lemma NotInRing(cells: seq<Mac>, nr: nat, index: nat, mac: Mac)
    requires |cells| == PROBE_MX && nr <= PROBE_MX && index < PROBE_MX && mac !in cells[..nr]
    ensures mac !in Unrolled(cells, nr, index)
  {
    assert cells[..PROBE_MX] == cells;
  }

  function ReportedAll(macs: seq<(Mac, bool)>): (r: seq<Mac>) {
    if macs == [] then []
    else Reported(ReportedAll(macs[..|macs| - 1]), macs[|macs| - 1].0, macs[|macs| - 1].1)
  }

  ghost predicate Distinct(macs: seq<Mac>) {
    forall i, j :: 0 <= i < j < |macs| ==> macs[i] != macs[j]
  }

  /** In every run the ring holds each MAC at most once and no more than it has cells. */
  lemma {:induction false} RecentDistinct(macs: seq<(Mac, bool)>)
    ensures Distinct(ReportedAll(macs)) && |ReportedAll(macs)| <= 64
  {
    if macs != [] {
      RecentDistinct(macs[..|macs| - 1]);
    }
  }

  /** A report changes the ring exactly for a MAC that is neither in it nor connected; it is then the newest,
      and the others are as before but for the oldest of 64. */
  lemma ReportedIff(recent: seq<Mac>, mac: Mac, connected: bool)
    requires |recent| <= 64
    ensures var r := Reported(recent, mac, connected);
      && (r == recent <==> mac in recent || connected)
      && (r != recent ==> r == (if |recent| == 64 then recent[1..] else recent) + [mac])
  {
    if !(mac in recent || connected) {
      var r := Reported(recent, mac, connected);
      assert r[|r| - 1] == mac;
    }
  }
}
