/** Copying a directory tree with a progress log: a walk that adds up the sizes, a walk that copies, and
    a log shared with other copies in which every copy keeps a line of its own. */
module FileCopy {
  type Name = s: string | |s| > 0 witness "a"

  /** What a walk finds: the size that `stat` reports, and the bytes that can be read. */
  datatype Node = File(stSize: nat, content: seq<int>) | Dir(entries: seq<Entry>)
  datatype Entry = Entry(name: Name, node: Node)

  /** What is created at the destination. */
  datatype Effect = MadeDir(path: string) | MadeFile(path: string, content: seq<int>)

  /** A line of this copy, or of another one. */
  datatype Line = Own(done: bool, total: nat, cur: nat) | Other(text: string)

  const BLOCK := 4096
  const W_LOG_SIZE := 1048576

  // ---------- what the walks are for ----------

  /** Names that start with a dot are passed over. */
  predicate Hidden(e: Entry) {
    e.name[0] == '.'
  }

  function Total(n: Node): nat {
    match n
    case File(size, _) => size
    case Dir(es) => TotalOf(es)
  }

  function TotalOf(es: seq<Entry>): nat {
    if es == [] then 0
    else
      var e := es[|es| - 1];
      TotalOf(es[..|es| - 1]) + if Hidden(e) then 0 else Total(e.node)
  }

  /** The bytes that can be read. */
  function Content(n: Node): nat {
    match n
    case File(_, content) => |content|
    case Dir(es) => ContentOf(es)
  }

  function ContentOf(es: seq<Entry>): nat {
    if es == [] then 0
    else
      var e := es[|es| - 1];
      ContentOf(es[..|es| - 1]) + if Hidden(e) then 0 else Content(e.node)
  }

  /** The bytes of a file that a copy counts: as many as `stat` reported. */
  function Copied(n: Node): seq<int>
    requires n.File?
  {
    if n.stSize <= |n.content| then n.content[..n.stSize] else n.content
  }

  /** The copy of a tree under the path `to`. */
  function Mirror(n: Node, to: string): seq<Effect> {
    match n
    case File(_, _) => [MadeFile(to, Copied(n))]
    case Dir(es) => [MadeDir(to)] + MirrorOf(es, to)
  }

  function MirrorOf(es: seq<Entry>, to: string): seq<Effect> {
    if es == [] then []
    else
      var e := es[|es| - 1];
      MirrorOf(es[..|es| - 1], to) + if Hidden(e) then [] else Mirror(e.node, to + "/" + e.name)
  }

  /** How the walks unfold: for a file, for a directory, and from one entry to the next. */
  lemma LeafWalks(n: Node, to: string)
    ensures n.File? ==> Total(n) == n.stSize && Content(n) == |n.content| && Mirror(n, to) == [MadeFile(to, Copied(n))]
    ensures TotalOf([]) == 0 == ContentOf([]) && MirrorOf([], to) == []
  {
  }

  lemma DirWalks(n: Node, to: string)
    requires n.Dir?
    ensures Total(n) == TotalOf(n.entries) && Content(n) == ContentOf(n.entries)
    ensures Mirror(n, to) == [MadeDir(to)] + MirrorOf(n.entries, to)
  {
  }

  lemma EntriesNext(es: seq<Entry>, i: nat, to: string)
    requires i < |es|
    ensures var e, front, next := es[i], es[..i], es[..i + 1];
      if Hidden(e) then
        && TotalOf(next) == TotalOf(front)
        && ContentOf(next) == ContentOf(front)
        && MirrorOf(next, to) == MirrorOf(front, to)
      else
        && TotalOf(next) == TotalOf(front) + Total(e.node)
        && ContentOf(next) == ContentOf(front) + Content(e.node)
        && MirrorOf(next, to) == MirrorOf(front, to) + Mirror(e.node, to + "/" + e.name)
  {
    hide Total, Content, Mirror;
    assert es[..i + 1][..i] == es[..i];
  }

  lemma {:induction false} ContentGrows(es: seq<Entry>, i: nat)
    requires i <= |es|
    ensures ContentOf(es[..i]) <= ContentOf(es)
    decreases |es|
  {
    if i < |es| {
      var front := es[..|es| - 1];
      ContentGrows(front, i);
      assert front[..i] == es[..i];
    } else {
      assert es[..i] == es;
    }
  }

  /** No file changes while it is copied. */
  ghost predicate Steady(n: Node) {
    match n
    case File(size, content) => size == |content|
    case Dir(es) => forall i :: 0 <= i < |es| && !Hidden(es[i]) ==> Steady(es[i].node)
  }

  lemma SteadyEntry(es: seq<Entry>, i: nat)
    requires i < |es|
    ensures Steady(Dir(es)) && !Hidden(es[i]) ==> Steady(es[i].node)
  {
  }

  /** Of a steady file all bytes are copied. */
  lemma SteadyCopied(n: Node)
    requires n.File? && Steady(n)
    ensures Copied(n) == n.content
  {
  }

  lemma {:induction false} SteadyTotal(n: Node)
    requires Steady(n)
    ensures Content(n) == Total(n)
  {
    if n.Dir? {
      SteadyTotalOf(n.entries);
    }
  }

  lemma {:induction false} SteadyTotalOf(es: seq<Entry>)
    requires forall i :: 0 <= i < |es| && !Hidden(es[i]) ==> Steady(es[i].node)
    ensures ContentOf(es) == TotalOf(es)
  {
    if es != [] {
      var e := es[|es| - 1];
      SteadyTotalOf(es[..|es| - 1]);
      if !Hidden(e) {
        SteadyTotal(e.node);
      }
    }
  }

  // ---------- what a copy contains ----------

  /** `leaf` is found in the tree under these names, none of them hidden. */
  ghost predicate Reaches(n: Node, names: seq<Name>, leaf: Node)
    decreases |names|
  {
    if names == [] then leaf == n
    else n.Dir? && exists i :: 0 <= i < |n.entries| && n.entries[i].name == names[0] && n.entries[i].name[0] != '.'
                               && Reaches(n.entries[i].node, names[1..], leaf)
  }

  function PathOf(to: string, names: seq<Name>): string
    decreases |names|
  {
    if names == [] then to else PathOf(to + "/" + names[0], names[1..])
  }

  function EffectOf(n: Node, path: string): Effect {
    if n.File? then MadeFile(path, Copied(n)) else MadeDir(path)
  }

  lemma {:induction false} InMirrorOf(es: seq<Entry>, to: string, i: nat, x: Effect)
    requires i < |es| && !Hidden(es[i]) && x in Mirror(es[i].node, to + "/" + es[i].name)
    ensures x in MirrorOf(es, to)
  {
    hide Mirror;
    if i < |es| - 1 {
      InMirrorOf(es[..|es| - 1], to, i, x);
    }
  }

  lemma {:induction false} FromMirrorOf(es: seq<Entry>, to: string, x: Effect) returns (i: nat)
    requires x in MirrorOf(es, to)
    ensures i < |es| && !Hidden(es[i]) && x in Mirror(es[i].node, to + "/" + es[i].name)
  {
    hide Mirror;
    var n := |es| - 1;
    if x in MirrorOf(es[..n], to) {
      i := FromMirrorOf(es[..n], to, x);
    } else {
      i := n;
    }
  }

  /** Everything reached without a hidden name is copied to the path of the same names. */
  lemma {:induction false} MirrorHas(n: Node, to: string, names: seq<Name>, leaf: Node)
    requires Reaches(n, names, leaf)
    ensures EffectOf(leaf, PathOf(to, names)) in Mirror(n, to)
    decreases |names|
  {
    if names != [] {
      var i :| 0 <= i < |n.entries| && n.entries[i].name == names[0] && !Hidden(n.entries[i])
               && Reaches(n.entries[i].node, names[1..], leaf);
      var below := to + "/" + names[0];
      MirrorHas(n.entries[i].node, below, names[1..], leaf);
      InMirrorOf(n.entries, to, i, EffectOf(leaf, PathOf(below, names[1..])));
    }
  }

  /** And nothing else is. */
  lemma {:induction false} MirrorOnly(n: Node, to: string, x: Effect) returns (names: seq<Name>, leaf: Node)
    requires x in Mirror(n, to)
    ensures Reaches(n, names, leaf) && x == EffectOf(leaf, PathOf(to, names))
    decreases n
  {
    if n.File? || x == MadeDir(to) {
      return [], n;
    }
    var i := FromMirrorOf(n.entries, to, x);
    var e := n.entries[i];
    var rest;
    rest, leaf := MirrorOnly(e.node, to + "/" + e.name, x);
    names := [e.name] + rest;
    assert names[1..] == rest;
  }

  /** What stands at the destination is the tree: every entry that is reached, with all its bytes, and
      nothing else. */
  ghost predicate WholeCopy(n: Node, to: string, made: seq<Effect>) {
    && (forall names, leaf :: Reaches(n, names, leaf) ==> Whole(leaf, PathOf(to, names)) in made)
    && (forall x :: x in made ==> exists names, leaf :: Reaches(n, names, leaf) && x == Whole(leaf, PathOf(to, names)))
  }

  function Whole(n: Node, path: string): Effect {
    if n.File? then MadeFile(path, n.content) else MadeDir(path)
  }

  lemma {:induction false} SteadyReached(n: Node, names: seq<Name>, leaf: Node)
    requires Steady(n) && Reaches(n, names, leaf)
    ensures Steady(leaf) && forall path :: EffectOf(leaf, path) == Whole(leaf, path)
    decreases |names|
  {
    if names != [] {
      var i :| 0 <= i < |n.entries| && n.entries[i].name == names[0] && !Hidden(n.entries[i])
               && Reaches(n.entries[i].node, names[1..], leaf);
      SteadyReached(n.entries[i].node, names[1..], leaf);
    } else if leaf.File? {
      SteadyCopied(leaf);
    }
  }

  /** Of a steady tree the copy is the whole tree. */
  lemma {:induction false} SteadyMirror(n: Node, to: string)
    requires Steady(n)
    ensures WholeCopy(n, to, Mirror(n, to))
  {
    forall names, leaf | Reaches(n, names, leaf)
      ensures Whole(leaf, PathOf(to, names)) in Mirror(n, to)
    {
      MirrorHas(n, to, names, leaf);
      SteadyReached(n, names, leaf);
    }
    forall x | x in Mirror(n, to)
      ensures exists names, leaf :: Reaches(n, names, leaf) && x == Whole(leaf, PathOf(to, names))
    {
      var names, leaf := MirrorOnly(n, to, x);
      SteadyReached(n, names, leaf);
    }
  }

  // ---------- the log ----------

  /** The lines of this copy. */
  function OwnLines(log: seq<Line>): seq<Line> {
    if log == [] then []
    else OwnLines(log[..|log| - 1]) + if log[|log| - 1].Own? then [log[|log| - 1]] else []
  }

  function OtherLines(log: seq<Line>): seq<Line> {
    if log == [] then []
    else OtherLines(log[..|log| - 1]) + if log[|log| - 1].Own? then [] else [log[|log| - 1]]
  }

  lemma NoLines()
    ensures OwnLines([]) == OtherLines([]) == [] && forall own :: Relogged([], own) == []
  {
  }

  lemma OneMoreLine(log: seq<Line>, l: Line)
    ensures OwnLines(log + [l]) == OwnLines(log) + if l.Own? then [l] else []
    ensures OtherLines(log + [l]) == OtherLines(log) + if l.Own? then [] else [l]
  {
    assert (log + [l])[..|log|] == log;
  }

  /** All lines of this copy replaced. */
  function Relogged(log: seq<Line>, own: Line): (r: seq<Line>)
    ensures |r| == |log|
  {
    if log == [] then []
    else Relogged(log[..|log| - 1], own) + [if log[|log| - 1].Own? then own else log[|log| - 1]]
  }

  lemma RelogNext(log: seq<Line>, i: nat, own: Line)
    requires i < |log|
    ensures Relogged(log[..i + 1], own) == Relogged(log[..i], own) + [if log[i].Own? then own else log[i]]
    ensures OwnLines(log[..i + 1]) == OwnLines(log[..i]) + if log[i].Own? then [log[i]] else []
  {
    assert log[..i + 1][..i] == log[..i];
  }

  /** Replacing its lines, a copy touches no other line, and all of its own say the same. */
  lemma {:induction false} RelogOnlyOwn(log: seq<Line>, own: Line)
    requires own.Own?
    ensures forall i :: 0 <= i < |log| ==> Relogged(log, own)[i] == if log[i].Own? then own else log[i]
    ensures |OwnLines(Relogged(log, own))| == |OwnLines(log)|
    ensures forall l :: l in OwnLines(Relogged(log, own)) ==> l == own
    ensures OtherLines(Relogged(log, own)) == OtherLines(log)
  {
    if log != [] {
      var r := Relogged(log[..|log| - 1], own);
      RelogOnlyOwn(log[..|log| - 1], own);
      assert Relogged(log, own)[..|log| - 1] == r;
    }
  }
}
