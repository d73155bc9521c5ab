/** What the ring ends up with, said of the untraced run alone: where tracing starts, goes on, pauses and resumes. */
module TraceCoverage {
  import opened Wrappers
  import opened Words
  import opened Memory
  import opened Tracing

  predicate Exists(w: World, c0: Config, n: nat) { UntracedRun(w, c0, n).Some? }

  /** The n-th configuration of the untraced run. */
  function Conf(w: World, c0: Config, n: nat): Config
    requires Exists(w, c0, n)
  {
    UntracedRun(w, c0, n).value
  }

  /** The untraced run has configurations n to m. */
  ghost predicate Runs(w: World, c0: Config, n: nat, m: nat) { forall i: nat :: n <= i <= m ==> Exists(w, c0, i) }

  /** The image as far as the tracer is concerned. */
  predicate InImage(w: World, a: int) { w.base != 0 && w.base <= a < w.base + 0x20_0000 }

  /** The eight bytes at a can be read and stand for v. */
  predicate HoldsWord(m: Mem, a: int, v: int) {
    && a in m && a + 1 in m && a + 2 in m && a + 3 in m && a + 4 in m && a + 5 in m && a + 6 in m && a + 7 in m
    && v == m[a] as int + 0x100 * (m[a + 1] as int) + 0x1_0000 * (m[a + 2] as int) + 0x100_0000 * (m[a + 3] as int)
            + 0x1_0000_0000 * (m[a + 4] as int) + 0x100_0000_0000 * (m[a + 5] as int)
            + 0x1_0000_0000_0000 * (m[a + 6] as int) + 0x100_0000_0000_0000 * (m[a + 7] as int)
  }

  lemma WordRead(m: Mem, a: int, v: int)
    requires HoldsWord(m, a, v)
    ensures ReadQword(m, a) == v
  {
    assert ReadBytes(m, a + 8, 0) == Some(0);
    assert ReadBytes(m, a + 7, 1) == Some(m[a + 7] as int);
    assert ReadBytes(m, a + 6, 2) == Some(m[a + 6] as int + 0x100 * (m[a + 7] as int));
    var b5 := m[a + 5] as int + 0x100 * (m[a + 6] as int + 0x100 * (m[a + 7] as int));
    assert ReadBytes(m, a + 5, 3) == Some(b5);
    var b4 := m[a + 4] as int + 0x100 * b5;
    assert ReadBytes(m, a + 4, 4) == Some(b4);
    var b3 := m[a + 3] as int + 0x100 * b4;
    assert ReadBytes(m, a + 3, 5) == Some(b3);
    var b2 := m[a + 2] as int + 0x100 * b3;
    assert ReadBytes(m, a + 2, 6) == Some(b2);
    var b1 := m[a + 1] as int + 0x100 * b2;
    assert ReadBytes(m, a + 1, 7) == Some(b1);
    assert ReadBytes(m, a, 8) == Some(m[a] as int + 0x100 * b1);
  }

  /** After k steps the tracer single-steps the process at its n-th configuration, having seen the positions log. */
  ghost predicate Stepping(w: World, c0: Config, k: nat, n: nat, log: seq<Position>) {
    && Traced(w, c0, k).Some? && Exists(w, c0, n)
    && var s := Traced(w, c0, k).value;
       && s.c == Conf(w, c0, n) && s.tf && s.v.tracing && s.v.firstBpSeen && s.v.entryBp == 0 && s.v.bpAddr == 0
       && s.v.ring == Last(log, if w.ringMax < 0 then 0 else w.ringMax)
  }

  /** The process has not been at its entry before its n-th configuration. */
  ghost predicate NotYet(w: World, c0: Config, n: nat) {
    forall k: nat :: k < n ==> Exists(w, c0, k) && Conf(w, c0, k).rip != w.Entry()
  }

  /** It has executed a breakpoint of its own by then. */
  ghost predicate Broken(w: World, c0: Config, n: nat) {
    exists k: nat :: k < n && Exists(w, c0, k) && AtInt3(Conf(w, c0, k))
  }

  // Up to the entry.

  /** The tracer waiting for the entry, with the process at c. */
  function Waiting(w: World, c0: Config, c: Config, seen: bool): State
    requires w.Entry() in c0.mem
  {
    State(Patch(c, w.Entry()), false, Vars(0, [], w.Entry(), [c0.mem[w.Entry()]], false, seen, 0, []))
  }

  lemma WaitOn(w: World, c0: Config, n: nat, seen: bool)
    requires Patchable(w, c0) && w.entryRva != 0 && Exists(w, c0, n + 1) && Exists(w, c0, n)
    requires var c := Conf(w, c0, n); w.Entry() in c.mem && c.mem[w.Entry()] == c0.mem[w.Entry()] && c.rip != w.Entry()
    ensures var c, d := Conf(w, c0, n), Conf(w, c0, n + 1);
            && w.Entry() in d.mem && d.mem[w.Entry()] == c0.mem[w.Entry()]
            && TracedStep(w, Waiting(w, c0, c, seen)) == Some(Waiting(w, c0, d, seen || AtInt3(c)))
  {
    var c := Conf(w, c0, n);
    assert UntracedRun(w, c0, n + 1) == Untraced(w, c);
    assert Site(w, c0, w.Entry());
    if !AtInt3(c) { assert Oblivious(w, c, w.Entry()); }
  }

  lemma BrokenOn(w: World, c0: Config, n: nat)
    requires Exists(w, c0, n)
    ensures Broken(w, c0, n + 1) <==> Broken(w, c0, n) || AtInt3(Conf(w, c0, n))
  {
    if Broken(w, c0, n) {
      var k: nat :| k < n && Exists(w, c0, k) && AtInt3(Conf(w, c0, k));
      assert k < n + 1 && Exists(w, c0, k);
    }
    if AtInt3(Conf(w, c0, n)) { assert n < n + 1 && Exists(w, c0, n); }
  }

  lemma {:induction false} UpToEntry(w: World, c0: Config, n: nat)
    requires Patchable(w, c0) && w.entryRva != 0 && Exists(w, c0, n) && NotYet(w, c0, n)
    ensures var c := Conf(w, c0, n);
            && w.Entry() in c.mem && c.mem[w.Entry()] == c0.mem[w.Entry()]
            && Traced(w, c0, n) == Some(Waiting(w, c0, c, Broken(w, c0, n)))
    decreases n
  {
    if n == 0 {
      assert Conf(w, c0, 0) == c0;
    } else {
      hide Unaware, TracedStep, Untraced;
      UpToEntry(w, c0, n - 1);
      WaitOn(w, c0, n - 1, Broken(w, c0, n - 1));
      BrokenOn(w, c0, n - 1);
    }
  }

  /** Tracing starts where the process first gets to its entry. */
  lemma StartsAtEntry(w: World, c0: Config, n: nat)
    requires Traceable(w, c0) && w.entryRva != 0
    requires Exists(w, c0, n) && Conf(w, c0, n).rip == w.Entry() && NotYet(w, c0, n)
    ensures Stepping(w, c0, n + 1, n, [])
  {
    UpToEntry(w, c0, n);
    assert w.Entry() != 0 && UntracedRun(w, c0, n).value.rip == w.Entry();
    var k: nat :| k < n && UntracedRun(w, c0, k).Some? && AtInt3(UntracedRun(w, c0, k).value);
    assert Exists(w, c0, k) && AtInt3(Conf(w, c0, k));
    var c := Conf(w, c0, n);
    PatchUndone(c, w.Entry());
    hide Unaware, LoaderFirst, UntracedRun;
  }

  // Within the image.

  /** In its n-th configuration the process executes an instruction, other than int3, and raises nothing. */
  predicate Executes(w: World, c0: Config, n: nat) {
    && Exists(w, c0, n) && Exists(w, c0, n + 1)
    && !AtInt3(Conf(w, c0, n)) && w.exec(Conf(w, c0, n)) == Next(Conf(w, c0, n + 1))
  }

  predicate StaysInImage(w: World, c0: Config, n: nat) { Executes(w, c0, n) && InImage(w, Conf(w, c0, n + 1).rip) }

  /** From its n-th to its m-th configuration the process executes instructions that end in the image. */
  ghost predicate Straight(w: World, c0: Config, n: nat, m: nat) {
    forall i: nat :: n <= i < m ==> StaysInImage(w, c0, i)
  }

  /** Where the process is, as the ring has it. */
  function Mark(w: World, c: Config): Position { Position(c.rip - w.base, c.rsp, c.rbp) }

  /** The positions of configurations n + 1 to m. */
  ghost function Marks(w: World, c0: Config, n: nat, m: nat): (r: seq<Position>)
    requires n <= m && Runs(w, c0, n, m)
    ensures |r| == m - n
    ensures forall j: nat :: j < m - n ==> Exists(w, c0, n + 1 + j) && r[j] == Mark(w, Conf(w, c0, n + 1 + j))
  {
    if n == m then [] else assert Exists(w, c0, m); Marks(w, c0, n, m - 1) + [Mark(w, Conf(w, c0, m))]
  }

  lemma StepOn(w: World, c0: Config, k: nat, n: nat, log: seq<Position>)
    requires Stepping(w, c0, k, n, log) && StaysInImage(w, c0, n)
    ensures Stepping(w, c0, k + 1, n + 1, log + [Mark(w, Conf(w, c0, n + 1))])
  {
    hide Last, UntracedRun;
    var s := Traced(w, c0, k).value;
    assert Traced(w, c0, k + 1) == TracedStep(w, s);
    LastOn(log, Mark(w, Conf(w, c0, n + 1)), w.ringMax);
  }

  lemma SteppingExists(w: World, c0: Config, k: nat, n: nat, log: seq<Position>)
    requires Stepping(w, c0, k, n, log)
    ensures Exists(w, c0, n)
  { }

  /** As long as the process stays in the image, the ring follows it instruction by instruction. */
  lemma {:induction false} FollowsStraight(w: World, c0: Config, k: nat, n: nat, m: nat, log: seq<Position>)
    requires Stepping(w, c0, k, n, log) && n <= m && Straight(w, c0, n, m)
    ensures Runs(w, c0, n, m)
    ensures Stepping(w, c0, k + (m - n), m, log + Marks(w, c0, n, m))
    decreases m - n
  {
    hide Stepping, UntracedRun;
    if n == m {
      assert Exists(w, c0, n) by { SteppingExists(w, c0, k, n, log); }
      assert log + Marks(w, c0, n, m) == log;
    } else {
      assert StaysInImage(w, c0, m - 1);
      FollowsStraight(w, c0, k, n, m - 1, log);
      StepOn(w, c0, k + (m - 1 - n), m - 1, log + Marks(w, c0, n, m - 1));
      assert log + Marks(w, c0, n, m) == log + Marks(w, c0, n, m - 1) + [Mark(w, Conf(w, c0, m))];
    }
  }

  /**
   So if the process gets to its entry for the first time at n0 and then stays in the image up to n, the ring holds
   the last ring_max of its positions from n0 + 1 to n.
   */
  lemma RingFromEntry(w: World, c0: Config, n0: nat, n: nat)
    requires Traceable(w, c0) && w.entryRva != 0
    requires Exists(w, c0, n0) && Conf(w, c0, n0).rip == w.Entry() && NotYet(w, c0, n0)
    requires n0 <= n && Straight(w, c0, n0, n)
    ensures Runs(w, c0, n0, n)
    ensures Stepping(w, c0, n + 1, n, Marks(w, c0, n0, n))
  {
    hide Stepping, Straight, Traceable, NotYet, UntracedRun;
    StartsAtEntry(w, c0, n0);
    FollowsStraight(w, c0, n0 + 1, n0, n, []);
    assert [] + Marks(w, c0, n0, n) == Marks(w, c0, n0, n);
  }

  /** Instructions that raise a benign exception, and breakpoints of the process's own, leave no mark. */
  lemma PassesOver(w: World, c0: Config, k: nat, n: nat, log: seq<Position>)
    requires Stepping(w, c0, k, n, log) && Exists(w, c0, n + 1)
    requires AtInt3(Conf(w, c0, n)) || !w.exec(Conf(w, c0, n)).Next?
    ensures Stepping(w, c0, k + 1, n + 1, log)
  {
    hide Last;
    assert Traced(w, c0, k + 1) == TracedStep(w, Traced(w, c0, k).value);
    assert UntracedRun(w, c0, n + 1) == Untraced(w, Conf(w, c0, n));
  }

  // Out of the image and back.

  /** It does not get to p from its n-th configuration on, before the m-th. */
  ghost predicate NotAt(w: World, c0: Config, n: nat, m: nat, p: int) {
    forall i: nat :: n <= i < m ==> Exists(w, c0, i) && Conf(w, c0, i).rip != p
  }

  /** At n the process leaves the image; the word on top of its stack is then p, in the image. */
  ghost predicate Leaves(w: World, c0: Config, n: nat, p: int) {
    && Executes(w, c0, n)
    && var d := Conf(w, c0, n + 1);
       !InImage(w, d.rip) && HoldsWord(d.mem, d.rsp, p) && InImage(w, p) && p in d.mem
  }

  /** The tracer away, to come back at p. */
  function Away(s: State, c: Config, p: int): State
    requires p in c.mem
  {
    State(Patch(c, p), false, s.v.(bpAddr := p, bpOrig := [c.mem[p]], steps := s.v.steps + 1))
  }

  lemma GoesAway(w: World, c0: Config, k: nat, n: nat, log: seq<Position>, p: int)
    requires Stepping(w, c0, k, n, log) && Leaves(w, c0, n, p) && !w.wild(Traced(w, c0, k).value.v.steps + 1)
    ensures Traced(w, c0, k + 1) == Some(Away(Traced(w, c0, k).value, Conf(w, c0, n + 1), p))
    ensures ReturnSite(w, Conf(w, c0, n + 1), p)
  {
    hide Last, ReadQword, HoldsWord, UntracedRun;
    var d := Conf(w, c0, n + 1);
    WordRead(d.mem, d.rsp, p);
    assert Traced(w, c0, k + 1) == TracedStep(w, Traced(w, c0, k).value);
  }

  lemma AwayOn(w: World, c0: Config, s: State, n: nat, p: int)
    requires Patchable(w, c0) && Site(w, c0, p) && Exists(w, c0, n) && Exists(w, c0, n + 1)
    requires s.v.tracing && s.v.firstBpSeen && s.v.entryBp == 0
    requires p in Conf(w, c0, n).mem && Conf(w, c0, n).rip != p && p != 0
    ensures p in Conf(w, c0, n + 1).mem
    ensures TracedStep(w, Away(s, Conf(w, c0, n), p)) == Some(Away(s, Conf(w, c0, n + 1), p))
  {
    hide ReadQword, Site, ReturnSite, Last;
    var c := Conf(w, c0, n);
    assert UntracedRun(w, c0, n + 1) == Untraced(w, c);
    if !AtInt3(c) { assert Oblivious(w, c, p); }
  }

  lemma {:induction false} StaysAway(w: World, c0: Config, s: State, k: nat, n: nat, m: nat, p: int)
    requires Patchable(w, c0) && Site(w, c0, p) && p != 0 && n <= m
    requires s.v.tracing && s.v.firstBpSeen && s.v.entryBp == 0
    requires Exists(w, c0, n) && Exists(w, c0, m) && Runs(w, c0, n, m) && NotAt(w, c0, n, m, p)
    requires p in Conf(w, c0, n).mem && Traced(w, c0, k) == Some(Away(s, Conf(w, c0, n), p))
    ensures p in Conf(w, c0, m).mem && Traced(w, c0, k + (m - n)) == Some(Away(s, Conf(w, c0, m), p))
    decreases m - n
  {
    hide Unaware, Site, TracedStep, UntracedRun;
    if n == m {
    } else {
      assert Exists(w, c0, m - 1);
      StaysAway(w, c0, s, k, n, m - 1, p);
      AwayOn(w, c0, s, m - 1, p);
      assert Traced(w, c0, k + (m - 1 - n) + 1) == TracedStep(w, Traced(w, c0, k + (m - 1 - n)).value);
    }
  }

  /** Back at p: the byte is restored, and single-stepping goes on. */
  lemma ComesBack(w: World, s: State, c: Config, p: int)
    requires p in c.mem && c.rip == p && p != 0 && s.v.tracing && s.v.firstBpSeen && s.v.entryBp == 0
    ensures TracedStep(w, Away(s, c, p)).Some?
    ensures var t := TracedStep(w, Away(s, c, p)).value;
            t == State(c, true, s.v.(bpAddr := 0, bpOrig := [], steps := s.v.steps + 1))
  {
    PatchUndone(c, p);
  }

  /**
   If the process leaves the image at n with the return address p on top of its stack, and first gets to p at m, the
   tracer is back at m and nothing has been added to the ring; unless the wild-branch check stopped it on the way out.
   */
  lemma ResumesAtReturn(w: World, c0: Config, k: nat, n: nat, m: nat, log: seq<Position>, p: int)
    requires Traceable(w, c0) && Stepping(w, c0, k, n, log) && Leaves(w, c0, n, p) && n + 1 <= m
    requires !w.wild(Traced(w, c0, k).value.v.steps + 1)
    requires Runs(w, c0, n + 1, m) && NotAt(w, c0, n + 1, m, p) && Exists(w, c0, m) && Conf(w, c0, m).rip == p
    ensures Stepping(w, c0, k + (m - n) + 1, m, log)
  {
    hide Unaware, LoaderFirst, UntracedRun, ReadQword, HoldsWord, Last, TracedStep, Untraced, AtInt3;
    var s := Traced(w, c0, k).value;
    GoesAway(w, c0, k, n, log, p);
    assert Site(w, c0, p);
    StaysAway(w, c0, s, k + 1, n + 1, m, p);
    ComesBack(w, s, Conf(w, c0, m), p);
    assert Traced(w, c0, k + (m - n) + 1) == TracedStep(w, Away(s, Conf(w, c0, m), p));
  }

  // Without an entry, and without a return address.

  ghost predicate Unbroken(w: World, c0: Config, n: nat) {
    forall k: nat :: k < n ==> Exists(w, c0, k) && !AtInt3(Conf(w, c0, k))
  }

  lemma {:induction false} UpToBreak(w: World, c0: Config, n: nat)
    requires w.entryRva == 0 && Exists(w, c0, n) && Unbroken(w, c0, n)
    ensures Traced(w, c0, n) == Some(State(Conf(w, c0, n), false, Vars(0, [], 0, [], false, false, 0, [])))
    decreases n
  {
    if n == 0 {
    } else {
      assert Exists(w, c0, n - 1);
      UpToBreak(w, c0, n - 1);
      assert UntracedRun(w, c0, n) == Untraced(w, Conf(w, c0, n - 1));
    }
  }

  /** With no entry to wait for, tracing starts behind the first breakpoint. */
  lemma StartsAtBreak(w: World, c0: Config, n: nat)
    requires w.entryRva == 0 && Exists(w, c0, n) && Unbroken(w, c0, n) && AtInt3(Conf(w, c0, n))
    ensures Stepping(w, c0, n + 1, n + 1, [])
  {
    UpToBreak(w, c0, n);
    assert UntracedRun(w, c0, n + 1) == Untraced(w, Conf(w, c0, n));
  }

  /**
   At n the process leaves the image, and the word on top of its stack is not an address there that can be patched.
   */
  ghost predicate Strays(w: World, c0: Config, n: nat) {
    && Executes(w, c0, n)
    && var d := Conf(w, c0, n + 1);
       !InImage(w, d.rip) && exists v :: HoldsWord(d.mem, d.rsp, v) && (!InImage(w, v) || v !in d.mem)
  }

  lemma Stray(w: World, c0: Config, k: nat, n: nat, log: seq<Position>)
    requires Stepping(w, c0, k, n, log) && Strays(w, c0, n) && !w.wild(Traced(w, c0, k).value.v.steps + 1)
    ensures Exists(w, c0, n + 1)
    ensures var s := Traced(w, c0, k).value;
            TracedStep(w, s) == Some(State(Conf(w, c0, n + 1), false, s.v.(steps := s.v.steps + 1)))
  {
    hide ReadQword, HoldsWord, Last, UntracedRun;
    var d := Conf(w, c0, n + 1);
    var v :| HoldsWord(d.mem, d.rsp, v) && (!InImage(w, v) || v !in d.mem);
    WordRead(d.mem, d.rsp, v);
  }

  lemma FreeOn(w: World, c: Config, d: Config, v: Vars)
    requires v.firstBpSeen && v.entryBp == 0 && v.bpAddr == 0 && Untraced(w, c) == Some(d)
    ensures TracedStep(w, State(c, false, v)) == Some(State(d, false, v))
  { }

  /** A process without a trap flag or a patch runs free for good, once the first breakpoint is behind it. */
  lemma {:induction false} RunsFree(w: World, c0: Config, v: Vars, k: nat, n: nat, m: nat)
    requires v.firstBpSeen && v.entryBp == 0 && v.bpAddr == 0 && n <= m && Exists(w, c0, n) && Exists(w, c0, m)
    requires Traced(w, c0, k) == Some(State(Conf(w, c0, n), false, v))
    ensures Traced(w, c0, k + (m - n)) == Some(State(Conf(w, c0, m), false, v))
    decreases m
  {
    hide TracedStep, Untraced;
    if n == m {
    } else {
      assert Exists(w, c0, m - 1);
      RunsFree(w, c0, v, k, n, m - 1);
      FreeOn(w, Conf(w, c0, m - 1), Conf(w, c0, m), v);
      assert Traced(w, c0, k + (m - 1 - n) + 1) == TracedStep(w, Traced(w, c0, k + (m - 1 - n)).value);
    }
  }

  /** Then tracing is over: the process runs free and the ring stays as it is. */
  lemma LosesTrack(w: World, c0: Config, k: nat, n: nat, m: nat, log: seq<Position>)
    requires Stepping(w, c0, k, n, log) && Strays(w, c0, n) && n < m && Exists(w, c0, m)
    requires !w.wild(Traced(w, c0, k).value.v.steps + 1)
    ensures var s := Traced(w, c0, k).value;
            Traced(w, c0, k + (m - n)) == Some(State(Conf(w, c0, m), false, s.v.(steps := s.v.steps + 1)))
  {
    hide Strays, TracedStep, Untraced, HoldsWord, UntracedRun, Last;
    var s := Traced(w, c0, k).value;
    Stray(w, c0, k, n, log);
    assert Traced(w, c0, k + 1) == TracedStep(w, s);
    RunsFree(w, c0, s.v.(steps := s.v.steps + 1), k + 1, n + 1, m);
  }
}
