/** The copying program itself. What the system answers, the clock and the signal to stop are left open:
    every contract holds for all of it. */
module CopyJob {
  import opened FileCopy

  datatype Callback = GetSize | FileCp

  method Time() returns (t: int) {
    t := *;
  }

  class CpFile {
    const src: string
    const dest: string
    var name: string
    var lastTime: int
    var delay: nat
    var totalSize: nat
    var curSize: nat
    var curSizeTmp: nat
    var tmpcount: nat
    var log: seq<Line>
    /** The bytes written so far, and what stands at the destination. */
    ghost var written: nat
    var made: seq<Effect>
    /** Something has failed, or the signal to stop has come. */
    ghost var trouble: bool

    /** Every byte written is accounted for, and the log has a line of this copy that says how far the
        account is settled. */
    ghost predicate Balanced()
      reads this
    {
      && curSize + delay + curSizeTmp == written
      && OwnLines(log) != []
      && forall l :: l in OwnLines(log) ==> l.Own? && l.cur == curSize
    }

    method Fails() returns (b: bool)
      modifies this`trouble
      ensures trouble == (old(trouble) || b)
    {
      b := *;
      trouble := trouble || b;
    }

    /** What other copies, which hold the lock in turn, do to the log. */
    method OthersLog()
      modifies this`log
      ensures OwnLines(log) == OwnLines(old(log))
    {
      var next: seq<Line> := *;
      if OwnLines(next) == OwnLines(log) {
        log := next;
      }
    }

    /** `synclog_callback` and `endlog_callback`, which differ in `done` and in setting the time. */
    method LogCallback(line: Line, end: bool) returns (r: Line)
      modifies this`lastTime, this`delay, this`curSize, this`curSizeTmp
      ensures line.Other? ==>
                r == line && curSize == old(curSize) && delay == old(delay) && curSizeTmp == old(curSizeTmp)
      ensures line.Own? ==> curSize == old(curSize) + old(delay) + old(curSizeTmp) && delay == curSizeTmp == 0
      ensures line.Own? ==> r == Own(end, totalSize, curSize)
      ensures end || line.Other? ==> lastTime == old(lastTime)
    {
      if line.Other? {
        return line;
      }
      var now := Time();
      curSize := curSize + curSizeTmp;
      curSize := curSize + delay;
      curSizeTmp, delay := 0, 0;
      if !end {
        lastTime := now;
      }
      r := Own(end, totalSize, curSize);
    }

    /** `loop_file` with one of the callbacks, and the new log in place of the old. */
    method Relog(end: bool) returns (ret: int)
      requires Balanced()
      modifies this`log, this`lastTime, this`delay, this`curSize, this`curSizeTmp, this`trouble
      ensures Balanced()
      ensures ret == 0 || ret == -1
      ensures ret == 0 ==> delay == curSizeTmp == 0
      ensures ret == 0 ==> forall l :: l in OwnLines(log) ==> l == Own(end, totalSize, written)
      ensures (old(trouble) ==> trouble) && (ret == -1 ==> trouble)
    {
      hide OwnLines, Relogged;
      OthersLog();
      var failed := Fails();
      if failed {
        return -1;
      }
      var next: seq<Line> := [];
      ghost var own := Own(end, totalSize, written);
      ghost var was := log;
      NoLines();
      assert log[..0] == [];
      for i := 0 to |log|
        invariant log == was && curSize + delay + curSizeTmp == written
        invariant old(trouble) ==> trouble
        invariant OwnLines(log[..i]) != [] ==> delay == curSizeTmp == 0
        invariant next == Relogged(log[..i], own)
      {
        RelogNext(log, i, own);
        var line := LogCallback(log[i], end);
        next := next + [line];
      }
      assert log[..|log|] == log;
      RelogOnlyOwn(log, own);
      log := next;
      ret := 0;
    }

    /** `cpfile_init` up to the log. */
    constructor (src: string, dest: string, found: seq<Line>)
      ensures this.src == src == name && this.dest == dest && log == found
      ensures curSize == delay == curSizeTmp == written == totalSize == 0 && made == [] && !trouble
    {
      this.src, this.dest, name := src, dest, src;
      lastTime, delay, totalSize, curSize, curSizeTmp, tmpcount := 0, 0, 0, 0, 0, 0;
      log, written, made, trouble := found, 0, [], false;
    }

    /** `cpfile_log_init`: refused while another copy to the same place runs or when the log cannot be
        opened; otherwise the log gets one line of this copy, in the place of the first old one if there is any. */
    method LogInit(opens: bool) returns (ret: int)
      requires curSize == delay == curSizeTmp == written == 0
      modifies this`log
      ensures ret == 0 || ret == -1
      ensures ret == 0 <==> opens && forall l :: l in old(log) ==> l.Other? || l.done
      ensures ret == -1 ==> log == old(log)
      ensures ret == 0 ==> Balanced() && OwnLines(log) == [Own(false, 1, 0)] && OtherLines(log) == OtherLines(old(log))
    {
      hide OwnLines, OtherLines;
      if !opens {
        return -1;
      }
      var next: seq<Line> := [];
      var setflag := false;
      NoLines();
      for i := 0 to |log|
        invariant log == old(log) && forall l :: l in log[..i] ==> l.Other? || l.done
        invariant OwnLines(next) == if setflag then [Own(false, 1, 0)] else []
        invariant OtherLines(next) == OtherLines(log[..i])
      {
        OneMoreLine(log[..i], log[i]);
        assert log[..i] + [log[i]] == log[..i + 1];
        if log[i].Own? && !log[i].done {
          return -1;
        }
        if log[i].Own? {
          if !setflag {
            OneMoreLine(next, Own(false, 1, 0));
            next := next + [Own(false, 1, 0)];
            setflag := true;
          }
        } else {
          OneMoreLine(next, log[i]);
          next := next + [log[i]];
        }
      }
      assert log[..|log|] == log;
      if !setflag {
        OneMoreLine(next, Own(false, 1, 0));
        next := next + [Own(false, 1, 0)];
      }
      log := next;
      ret := 0;
    }

    /** `cpfile_log_sync`. */
    method LogSync() returns (ret: int)
      requires Balanced()
      modifies this`log, this`lastTime, this`delay, this`curSize, this`curSizeTmp, this`trouble
      ensures Balanced()
      ensures ret == 0 || ret == -1
      ensures ret == 0 ==> delay == curSizeTmp == 0
      ensures ret == 0 ==> forall l :: l in OwnLines(log) ==> l == Own(false, totalSize, written)
      ensures (old(trouble) ==> trouble) && (ret == -1 ==> trouble)
    {
      var shutdown := Fails();
      if shutdown {
        return -1;
      }
      ret := Relog(false);
    }

    /** `cpfile_log_sync_check`: below 1 MiB nothing happens, in the second of the last report the bytes are
        put off, and otherwise they are reported. `now` is the time where it is asked for. */
    method LogSyncCheck() returns (ret: int, ghost now: int)
      requires Balanced()
      modifies this`log, this`lastTime, this`delay, this`curSize, this`curSizeTmp, this`trouble
      ensures Balanced()
      ensures ret == 0 || ret == -1
      ensures (old(trouble) ==> trouble) && (ret == -1 ==> trouble)
      ensures ret == 0 && (old(curSizeTmp) < 1048576 || now == old(lastTime)) ==>
                curSize == old(curSize) && lastTime == old(lastTime) && log == old(log)
      ensures ret == 0 && old(curSizeTmp) < 1048576 ==> delay == old(delay) && curSizeTmp == old(curSizeTmp)
      ensures ret == 0 && old(curSizeTmp) >= 1048576 && now == old(lastTime) ==>
                delay == old(delay) + old(curSizeTmp) && curSizeTmp == 0
      ensures ret == 0 && old(curSizeTmp) >= 1048576 && now != old(lastTime) ==>
                delay == curSizeTmp == 0 && forall l :: l in OwnLines(log) ==> l == Own(false, totalSize, written)
    {
      hide OwnLines;
      now := *;
      var shutdown := Fails();
      if shutdown {
        return -1, now;
      }
      if curSizeTmp < W_LOG_SIZE {
        return 0, now;
      }
      var t := Time();
      now := t;
      if t == lastTime {
        delay := delay + curSizeTmp;
        curSizeTmp := 0;
        return 0, now;
      }
      var synced := LogSync();
      ret := if synced < 0 then -1 else 0;
    }

    /** `u_cpfile`: blocks of at most 4096 bytes until a read gives nothing, which may also be a failure. */
    method CopyFile(file: Node, to: string) returns (ret: int)
      requires file.File? && Balanced()
      modifies this`log, this`lastTime, this`delay, this`curSize, this`curSizeTmp, this`written, this`made
      modifies this`trouble
      ensures Balanced() && old(written) <= written <= old(written) + |file.content|
      ensures ret == 0 || ret == -1
      ensures ret == 0 ==> made == old(made) + [MadeFile(to, Copied(file))] && written == old(written) + file.stSize
      ensures ret == -1 ==> made == old(made)
      ensures (old(trouble) ==> trouble) && (ret == -1 ==> trouble || !Steady(file))
    {
      var failed := Fails();
      if failed {
        return -1;
      }
      var dSize: nat := 0;
      while true
        invariant dSize <= |file.content| && written == old(written) + dSize && made == old(made)
        invariant Balanced() && (old(trouble) ==> trouble)
        decreases |file.content| - dSize
      {
        var left := |file.content| - dSize;
        var got: int := *;
        var n: nat := if 0 <= got <= left && got <= BLOCK then got else 0;
        if n == 0 {
          trouble := trouble || left > 0;
          break;
        }
        var full := Fails();
        if full {
          return -1;
        }
        written := written + n;
        curSizeTmp := curSizeTmp + n;
        var checked, _ := LogSyncCheck();
        if checked < 0 {
          return -1;
        }
        dSize := dSize + n;
      }
      if dSize != file.stSize {
        return -1;
      }
      made := made + [MadeFile(to, file.content[..dSize])];
      ret := 0;
    }

    /** `filecp` on the path in `name`. */
    method FileCpOne(node: Node) returns (ret: int)
      requires Balanced() && |src| <= |name|
      modifies this`log, this`lastTime, this`delay, this`curSize, this`curSizeTmp, this`written, this`made
      modifies this`tmpcount, this`trouble
      ensures Balanced() && old(written) <= written
      ensures written <= old(written) + if node.File? then |node.content| else 0
      ensures ret == 0 || ret == -1
      ensures ret == 0 ==> written == old(written) + if node.File? then node.stSize else 0
      ensures ret == 0 ==> made == old(made) + [var to := dest + name[|src|..];
        if node.File? then MadeFile(to, Copied(node)) else MadeDir(to)]
      ensures (old(trouble) ==> trouble) && (ret == -1 ==> trouble || !Steady(node))
    {
      var tmpfile := dest + name[|src|..];
      if node.File? {
        ret := CopyFile(node, tmpfile);
        if ret == -1 {
          return -1;
        }
        tmpcount := 0;
        return 0;
      }
      tmpcount := tmpcount + 1;
      var failed := Fails();
      if failed {
        return -1;
      }
      made := made + [MadeDir(tmpfile)];
      if tmpcount > 50 {
        tmpcount := 0;
        var _ := LogSync();
      }
      ret := 0;
    }

    /** `getsize`. */
    method GetSizeOne(node: Node) returns (ret: int)
      modifies this`totalSize
      ensures ret == 0 && totalSize == old(totalSize) + if node.File? then node.stSize else 0
    {
      if node.File? {
        totalSize := totalSize + node.stSize;
      }
      ret := 0;
    }

    /** `loop_dir` on the path in `name`: the callback for it and then for what is below it; the first
        failure ends the walk, and the path is as before in any case. */
    method LoopDir(node: Node, fuc: Callback) returns (ret: int)
      requires Balanced() && |src| <= |name|
      modifies this
      ensures Balanced() && name == old(name) && old(written) <= written
      ensures fuc == GetSize ==> written == old(written) && made == old(made)
      ensures fuc == GetSize ==> curSize == old(curSize) && log == old(log)
      ensures fuc == GetSize && ret >= 0 ==> totalSize == old(totalSize) + Total(node)
      ensures fuc == FileCp ==> totalSize == old(totalSize) && written <= old(written) + Content(node)
      ensures fuc == FileCp && ret >= 0 ==> written == old(written) + Total(node)
      ensures fuc == FileCp && ret >= 0 ==> made == old(made) + Mirror(node, dest + name[|src|..])
      ensures (old(trouble) ==> trouble) && (ret < 0 ==> trouble || (fuc == FileCp && !Steady(node)))
      decreases node
    {
      hide Total, Content, Mirror, MirrorOf, Copied;
      ghost var to := dest + name[|src|..];
      LeafWalks(node, to);
      var failed := Fails();
      if failed {
        return -2;
      }
      if fuc == GetSize {
        ret := GetSizeOne(node);
      } else {
        ret := FileCpOne(node);
      }
      if ret == -1 {
        return -1;
      }
      if node.File? {
        return 0;
      }
      DirWalks(node, to);
      failed := Fails();
      if failed {
        return -2;
      }
      ret := LoopEntries(node.entries, fuc);
    }

    /** The loop of `loop_dir` over the entries of the directory in `name`. */
    method LoopEntries(es: seq<Entry>, fuc: Callback) returns (ret: int)
      requires Balanced() && |src| <= |name|
      modifies this
      ensures Balanced() && name == old(name) && old(written) <= written
      ensures fuc == GetSize ==> written == old(written) && made == old(made)
      ensures fuc == GetSize ==> curSize == old(curSize) && log == old(log)
      ensures fuc == GetSize && ret >= 0 ==> totalSize == old(totalSize) + TotalOf(es)
      ensures fuc == FileCp ==> totalSize == old(totalSize) && written <= old(written) + ContentOf(es)
      ensures fuc == FileCp && ret >= 0 ==> written == old(written) + TotalOf(es)
      ensures fuc == FileCp && ret >= 0 ==> made == old(made) + MirrorOf(es, dest + name[|src|..])
      ensures (old(trouble) ==> trouble) && (ret < 0 ==> trouble || (fuc == FileCp && !Steady(Dir(es))))
      decreases es
    {
      hide Total, TotalOf, Content, ContentOf, Mirror, MirrorOf, Hidden, OwnLines, Steady;
      var path := name;
      ghost var to := dest + path[|src|..];
      LeafWalks(Dir([]), to);
      name := path + "/";
      for i := 0 to |es|
        invariant Balanced() && |path| <= |name| && name[..|path|] == path && old(written) <= written
        invariant old(trouble) ==> trouble
        invariant fuc == GetSize ==> written == old(written) && made == old(made)
        invariant fuc == GetSize ==> curSize == old(curSize) && log == old(log)
        invariant fuc == GetSize ==> totalSize == old(totalSize) + TotalOf(es[..i])
        invariant fuc == FileCp ==> totalSize == old(totalSize)
        invariant fuc == FileCp ==> written == old(written) + TotalOf(es[..i]) <= old(written) + ContentOf(es[..i])
        invariant fuc == FileCp ==> made == old(made) + MirrorOf(es[..i], to)
      {
        EntriesNext(es, i, to);
        ContentGrows(es, i + 1);
        SteadyEntry(es, i);
        if Hidden(es[i]) {
          continue;
        }
        name := path + "/" + es[i].name;
        assert dest + name[|src|..] == to + "/" + es[i].name;
        ret := LoopDir(es[i].node, fuc);
        if ret < 0 {
          name := name[..|path|];
          return ret;
        }
      }
      assert es[..|es|] == es;
      name := name[..|path|];
      ret := 0;
    }

    /** `cpfile_settime_size`. */
    method SetTimeSize(node: Node) returns (ret: int)
      requires Balanced() && name == src
      modifies this
      ensures Balanced() && name == src && written == old(written) && made == old(made)
      ensures ret == 0 || ret == -1
      ensures ret == 0 ==> totalSize == old(totalSize) + Total(node)
      ensures (old(trouble) ==> trouble) && (ret == -1 ==> trouble)
    {
      ret := LoopDir(node, GetSize);
      if ret < 0 {
        return -1;
      }
      lastTime := Time();
      ret := LogSync();
    }

    /** `cpfile_cp`. */
    method Copy(node: Node) returns (ret: int)
      requires Balanced() && name == src
      modifies this
      ensures Balanced() && totalSize == old(totalSize)
      ensures old(written) <= written <= old(written) + Content(node)
      ensures ret == 0 ==> made == old(made) + Mirror(node, dest) && written == old(written) + Total(node)
      ensures ret == 0 ==> forall l :: l in OwnLines(log) ==> l == Own(true, totalSize, written)
      ensures (old(trouble) ==> trouble) && (ret != 0 ==> trouble || !Steady(node))
    {
      hide Total, Content, Mirror, OwnLines;
      assert dest + src[|src|..] == dest;
      ret := LoopDir(node, FileCp);
      if ret < 0 {
        return ret;
      }
      ret := Relog(true);
    }
  }

  /** The program on a tree that does not change: the copy is the tree without its hidden entries, at no
      time are more bytes reported than there are, and the last report is complete. It succeeds unless
      something fails or a copy to the same place is running. */
  method CopyTree(src: string, dest: string, found: seq<Line>, node: Node) returns (ret: int, job: CpFile)
    requires Steady(node)
    ensures fresh(job) && job.curSize + job.delay + job.curSizeTmp == job.written <= Total(node)
    ensures ret == 0 ==> job.made == Mirror(node, dest) && WholeCopy(node, dest, job.made)
    ensures ret == 0 ==> OwnLines(job.log) != []
    ensures ret == 0 ==> forall l :: l in OwnLines(job.log) ==> l == Own(true, Total(node), Total(node))
    ensures ret != 0 ==> job.trouble || exists l :: l in found && l.Own? && !l.done
  {
    hide Total, Content, Mirror, OwnLines, WholeCopy;
    SteadyTotal(node);
    SteadyMirror(node, dest);
    job := new CpFile(src, dest, found);
    var unreadable := job.Fails();
    ret := job.LogInit(!unreadable);
    if ret < 0 {
      return ret, job;
    }
    ret := job.SetTimeSize(node);
    if ret < 0 {
      return ret, job;
    }
    var noSpace := job.Fails();
    if noSpace {
      return -1, job;
    }
    ret := job.Copy(node);
  }
}
