/**
 The tracer itself: a debug loop whose closures change its variables and the process it is attached to.
 Each of its methods does to both what the function of the same step in `Tracing` says.
 */
module TraceLoop {
  import opened Wrappers
  import opened Words
  import opened Tracing

  /** The process as the debug interface shows it: its thread's context and its memory. */
  class Process {
    var c: Config
    var tf: bool

    constructor (c: Config)
      ensures this.c == c && !tf
    {
      this.c, tf := c, false;
    }
  }

  lemma CreatedBytes(w: World, c: Config)
    ensures var v := Created(w, c).v; |v.bpOrig| <= 1 && |v.entryOrig| <= 1
  { }

  class Tracer {
    const w: World
    const process: Process
    var bpAddr: int
    var bpOrig: seq<byte>
    var entryBp: int
    var entryOrig: seq<byte>
    var tracing: bool
    var firstBpSeen: bool
    var steps: nat
    var ring: seq<Position>

    function Abstract(): State
      reads this, process
    {
      State(process.c, process.tf, Vars(bpAddr, bpOrig, entryBp, entryOrig, tracing, firstBpSeen, steps, ring))
    }

    method WriteMem(a: int, data: seq<byte>)
      requires |data| <= 1
      modifies process`c
      ensures Abstract() == WriteByte(old(Abstract()), a, data)
    {
      if |data| == 1 {
        process.c := process.c.(mem := process.c.mem[a := data[0]]);
      }
    }

    /** Attaches to a process that has just been created, and plants the entry breakpoint. */
    constructor (w: World, process: Process)
      requires !process.tf
      modifies process
      ensures this.w == w && this.process == process
      ensures Abstract() == Created(w, old(process.c))
    {
      this.w, this.process := w, process;
      bpAddr, bpOrig, entryBp, entryOrig := 0, [], 0, [];
      tracing, firstBpSeen, steps, ring := false, false, 0, [];
      new;
      if w.entryRva != 0 {
        entryBp := w.base + w.entryRva;
        var orig := ReadByte(process.c.mem, entryBp);
        if |orig| == 1 {
          entryOrig := orig;
          WriteMem(entryBp, [INT3]);
        }
      }
    }

    method TrapFlag(on: bool)
      modifies process`tf
      ensures Abstract() == SetTf(old(Abstract()), on)
    {
      process.tf := on;
    }

    method Arm(a: int)
      modifies this`bpAddr, this`bpOrig, process`c
      ensures Abstract() == ArmBp(old(Abstract()), a)
    {
      var orig := ReadByte(process.c.mem, a);
      if |orig| == 1 {
        bpOrig := orig;
        bpAddr := a;
        WriteMem(a, [INT3]);
      }
    }

    method Clear()
      requires |bpOrig| <= 1
      modifies this`bpAddr, this`bpOrig, process`c
      ensures Abstract() == ClearBp(old(Abstract()))
    {
      if bpAddr != 0 && bpOrig != [] {
        WriteMem(bpAddr, bpOrig);
      }
      bpAddr := 0;
      bpOrig := [];
    }

    method Breakpoint(addr: int)
      requires |bpOrig| <= 1 && |entryOrig| <= 1
      modifies this, process
      ensures Abstract() == OnBreakpoint(old(Abstract()), addr)
      ensures |bpOrig| <= 1 && |entryOrig| <= 1
    {
      if !firstBpSeen {
        firstBpSeen := true;
        if entryBp == 0 {
          tracing := true;
          TrapFlag(true);
        }
        return;
      }
      if entryBp != 0 && addr == entryBp {
        WriteMem(entryBp, entryOrig);
        process.c := process.c.(rip := addr);
        entryBp := 0;
        tracing := true;
        TrapFlag(true);
        return;
      }
      if bpAddr != 0 && addr == bpAddr {
        Clear();
        process.c := process.c.(rip := addr);
        if tracing {
          TrapFlag(true);
        }
        return;
      }
    }

    /** False when the wild-branch check ends the run. */
    method SingleStep() returns (on: bool)
      requires |bpOrig| <= 1 && |entryOrig| <= 1
      modifies this, process
      ensures |bpOrig| <= 1 && |entryOrig| <= 1
      ensures on == OnSingleStep(w, old(Abstract())).Some?
      ensures on ==> Abstract() == OnSingleStep(w, old(Abstract())).value
    {
      steps := steps + 1;
      var c := process.c;
      if w.InMain(c.rip) {
        ring := ring + [Position(c.rip - w.base, c.rsp, c.rbp)];
        if |ring| > w.ringMax {
          ring := ring[1..];
        }
        TrapFlag(true);
        return true;
      }
      if w.wild(steps) {
        return false;
      }
      var ret := ReadQword(c.mem, c.rsp);
      if w.InMain(ret) {
        TrapFlag(false);
        Arm(ret);
        return true;
      }
      TrapFlag(false);
      return true;
    }

    /** Lets the process run one instruction, and handles the event that comes of it, if any. */
    method Advance() returns (on: bool)
      requires |bpOrig| <= 1 && |entryOrig| <= 1
      modifies this, process
      ensures on == TracedStep(w, old(Abstract())).Some?
      ensures on ==> Abstract() == TracedStep(w, old(Abstract())).value
      ensures |bpOrig| <= 1 && |entryOrig| <= 1
    {
      hide OnSingleStep, OnBreakpoint;
      var c := process.c;
      if AtInt3(c) {
        process.c := c.(rip := c.rip + 1);
        Breakpoint(c.rip);
        return true;
      }
      match w.exec(c)
      case Next(d) =>
        process.c := d;
        if process.tf {
          process.tf := false;
          on := SingleStep();
        } else {
          on := true;
        }
      case Raise(code, first, d) =>
        if first && code in w.pass {
          process.c := d;
          on := true;
        } else {
          on := false;
        }
      case Gone =>
        on := false;
    }

    /**
     The debug loop over at most n instructions. It ends where the traced run does, and however it got there the
     process is then in a state of the untraced run, with the last of the positions stepped in the ring.
     */
    method Loop(n: nat, ghost c0: Config) returns (done: nat, on: bool)
      requires Abstract() == Created(w, c0)
      modifies this, process
      ensures done <= n && (on ==> done == n && Traced(w, c0, n) == Some(Abstract()))
      ensures !on ==> Traced(w, c0, done).Some? && Traced(w, c0, done + 1) == None
      ensures on && Traceable(w, c0) ==> exists k: nat :: k <= n && Inv(w, c0, Abstract(), k)
      ensures on ==> ring == Last(History(w, c0, n), Kept(w.ringMax))
    {
      hide Inv, Traceable, TracedStep, Created, Last, History;
      CreatedBytes(w, c0);
      done, on := 0, true;
      while done < n
        invariant done <= n && Traced(w, c0, done) == Some(Abstract())
        invariant |bpOrig| <= 1 && |entryOrig| <= 1
      {
        on := Advance();
        if !on { return; }
        done := done + 1;
      }
      RingIsLast(w, c0, n);
      if Traceable(w, c0) {
        var k := Transparent(w, c0, n);
      }
    }
  }
}
