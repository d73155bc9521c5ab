/** Runs of the stub that unwinds the exception chain to the head saved in a jmp_buf. */
module ChainUnwinder {
  import opened Words
  import opened Memory
  import opened Machine
  import opened Stepping
  import opened JumpStubs

  /** The n-th link of the chain that starts at head. */
  function Link(m: Mem, head: u64, n: nat): u64 {
    if n == 0 then head else Rd64(m, Link(m, head, n - 1))
  }

  function SavedHead(from: Cpu): u64 { Rd64(from.mem, Wrap(from.regs.rcx + JB_SEH)) }

  /** The n-th link of the chain the unwinder was entered with. */
  function LinkAt(from: Cpu, n: nat): u64 { Link(from.mem, from.teb.exceptionList, n) }

  /** It is the saved head or marks the end of the chain. */
  predicate Stops(from: Cpu, link: u64) { link == SavedHead(from) || link == ALL_ONES }

  /** Both r8 and gs:[0] are at link; of the rest only rax and the flags have changed. */
  ghost predicate Unwinding(from: Cpu, s: Cpu, link: u64) {
    s == from.(regs := from.regs.(rax := SavedHead(from), r8 := link),
               teb := from.teb.(exceptionList := link), flags := s.flags, pc := s.pc)
  }

  ghost predicate Entered(tr: Trace) {
    Runs(tr.code, Unwind(20, 14, -25), 39) && tr.from.status == Running && tr.from.pc == 0
  }

  /** To the loop, in two steps. */
  lemma Load(tr: Trace) returns (s: Cpu, t: Cpu)
    requires Entered(tr)
    ensures tr.At(t) && t.pc == 13 && Unwinding(tr.from, t, LinkAt(tr.from, 0))
    ensures s == Step(tr.w, tr.code, tr.from) && t == Step(tr.w, tr.code, s) && s.pc == 4
  {
    hide Reaches, Run, Step, Exec, Rd64;
    tr.Begin();
    s := tr.DoLoad(tr.from, 0, RAX, M(RCX, 0x30));
    t := tr.DoReadTeb(s, 4, R8, 0);
  }

  lemma EndTest(tr: Trace, s: Cpu, link: u64) returns (c: Cpu, d: Cpu)
    requires Entered(tr) && tr.At(s) && s.pc == 18 && Unwinding(tr.from, s, link)
    ensures c == Step(tr.w, tr.code, s) && d == Step(tr.w, tr.code, c) && c.pc == 22
    ensures tr.At(d) && Unwinding(tr.from, d, link) && d.pc == if link == ALL_ONES then 38 else 24
  {
    hide Reaches, Run, Step, Exec, SavedHead;
    c := tr.DoCompareImmediate(s, 18, Qword, R8, -1);
    d := tr.DoBranch(c, 22, E, 14);
  }

  function Before(s: Cpu, ss: seq<Cpu>, i: nat): Cpu
    requires i <= |ss|
  {
    if i == 0 then s else ss[i - 1]
  }

  /** Each of ss is one step after the one before it. */
  ghost predicate Stepwise(tr: Trace, s: Cpu, ss: seq<Cpu>) {
    forall i: nat :: i < |ss| ==> ss[i] == Step(tr.w, tr.code, Before(s, ss, i))
  }

  /** The two tests at the top of the loop. */
  lemma Tests(tr: Trace, s: Cpu, link: u64) returns (ss: seq<Cpu>)
    requires Entered(tr) && tr.At(s) && s.pc == 13 && Unwinding(tr.from, s, link)
    ensures |ss| >= 2 && Stepwise(tr, s, ss)
    ensures var t := ss[|ss| - 1];
            tr.At(t) && Unwinding(tr.from, t, link) && t.pc == if Stops(tr.from, link) then 38 else 24
    ensures !Stops(tr.from, link) ==> |ss| == 4 && ss[0].pc == 16 && ss[1].pc == 18 && ss[2].pc == 22
  {
    hide Reaches, Run, Step, Exec, SavedHead;
    var a := tr.DoCompare(s, 13, R8, RAX);
    var b := tr.DoBranch(a, 16, E, 20);
    ss := [a, b];
    if b.pc == 18 {
      var c, d := EndTest(tr, b, link);
      ss := [a, b, c, d];
    }
  }

  lemma {:induction false} StepwiseRuns(tr: Trace, s: Cpu, ss: seq<Cpu>, n: nat)
    requires Stepwise(tr, s, ss) && n <= |ss|
    ensures Run(tr.w, tr.code, s, n) == Before(s, ss, n)
    decreases n
  {
    hide Step;
    if n == 0 {
    } else {
      StepwiseRuns(tr, s, ss, n - 1);
      var x := Before(s, ss, n - 1);
      assert ss[n - 1] == Step(tr.w, tr.code, x);
      assert Run(tr.w, tr.code, x, 1) == Run(tr.w, tr.code, ss[n - 1], 0);
      RunAdd(tr.w, tr.code, s, n - 1, 1);
      assert n - 1 + 1 == n;
    }
  }

  /** On to the next link. */
  lemma Follow(tr: Trace, s: Cpu, link: u64) returns (ss: seq<Cpu>)
    requires Entered(tr) && tr.At(s) && s.pc == 24 && Unwinding(tr.from, s, link)
    ensures |ss| == 3 && Stepwise(tr, s, ss) && tr.At(ss[2])
    ensures ss[0].pc == 27 && ss[1].pc == 36 && ss[2].pc == 13 && Unwinding(tr.from, ss[2], Rd64(tr.from.mem, link))
  {
    hide Reaches, Run, Step, Exec, SavedHead, Rd64;
    var a := tr.DoLoad(s, 24, R8, M(R8, 0));
    var b := tr.DoWriteTeb(a, 27, 0, R8);
    var c := tr.DoJump(b, 36, -25);
    ss := [a, b, c];
  }

  /** One turn of the loop at a link that does not stop it: seven steps, none of which leaves it. */
  lemma Turn(tr: Trace, s: Cpu, n: nat) returns (ss: seq<Cpu>)
    requires Entered(tr) && tr.At(s) && s.pc == 13
    requires Unwinding(tr.from, s, LinkAt(tr.from, n)) && !Stops(tr.from, LinkAt(tr.from, n))
    ensures |ss| == 7 && Stepwise(tr, s, ss) && forall i :: 0 <= i < 7 ==> 13 <= ss[i].pc <= 36
    ensures tr.At(ss[6]) && ss[6].pc == 13 && Unwinding(tr.from, ss[6], LinkAt(tr.from, n + 1))
  {
    hide Reaches, Run, Step, Rd64, Unwinding, Stops, Entered;
    var tests := Tests(tr, s, LinkAt(tr.from, n));
    var moves := Follow(tr, tests[3], LinkAt(tr.from, n));
    ss := tests + moves;
    assert tests[3] == Before(tests[3], moves, 0);
    forall i: nat | i < 7 ensures ss[i] == Step(tr.w, tr.code, Before(s, ss, i)) {
      if i < 4 {
        assert Before(s, ss, i) == Before(s, tests, i);
      } else {
        assert Before(s, ss, i) == Before(tests[3], moves, i - 4);
      }
    }
  }

  /** The loop reaches the n-th link when none before it stops it. */
  lemma {:induction false} Reach(tr: Trace, n: nat) returns (t: Cpu)
    requires Entered(tr) && forall i: nat :: i < n ==> !Stops(tr.from, LinkAt(tr.from, i))
    ensures tr.At(t) && t.pc == 13 && Unwinding(tr.from, t, LinkAt(tr.from, n))
    ensures t == Run(tr.w, tr.code, tr.from, 2 + 7 * n)
    decreases n
  {
    hide Reaches, Step, Unwinding, Stops, Entered, LinkAt;
    if n == 0 {
      var s;
      s, t := Load(tr);
      StepwiseRuns(tr, tr.from, [s, t], 2);
    } else {
      var s := Reach(tr, n - 1);
      var ss := Turn(tr, s, n - 1);
      t := ss[6];
      StepwiseRuns(tr, s, ss, 7);
      RunAdd(tr.w, tr.code, tr.from, 2 + 7 * (n - 1), 7);
    }
  }

  /**
   If some link of the chain is the saved head or -1, the unwinder returns with gs:[0] and r8 at the first
   such link, having written no memory.
   */
  lemma UnwindRun(tr: Trace, n: nat) returns (t: Cpu)
    requires Entered(tr) && Stops(tr.from, LinkAt(tr.from, n))
    requires forall i: nat :: i < n ==> !Stops(tr.from, LinkAt(tr.from, i))
    ensures tr.At(t) && t.pc == Rd64(tr.from.mem, tr.from.regs.rsp) - tr.w.text
    ensures var f, link := tr.from, LinkAt(tr.from, n);
            && t.teb == f.teb.(exceptionList := link) && t.mem == f.mem
            && t.regs == f.regs.(rax := SavedHead(f), r8 := link, rsp := Wrap(f.regs.rsp + 8))
  {
    hide Reaches, Run, Step, Exec, Rd64, LinkAt, SavedHead;
    t := Reach(tr, n);
    var ss := Tests(tr, t, LinkAt(tr.from, n));
    t := ss[|ss| - 1];
    t := tr.DoRet(t, 38);
  }

  /** Otherwise it never gets past its loop, however many steps it runs. */
  lemma UnwindForever(tr: Trace, k: nat)
    requires Entered(tr) && forall i: nat :: !Stops(tr.from, LinkAt(tr.from, i))
    ensures 0 <= Run(tr.w, tr.code, tr.from, k).pc <= 36
  {
    hide Reaches, Step, Unwinding, Stops, Runs, LinkAt;
    if k < 2 {
      var s, t := Load(tr);
      StepwiseRuns(tr, tr.from, [s, t], k);
    } else {
      var n, j := (k - 2) / 7, (k - 2) % 7;
      var s := Reach(tr, n);
      var ss := Turn(tr, s, n);
      StepwiseRuns(tr, s, ss, j);
      RunAdd(tr.w, tr.code, tr.from, 2 + 7 * n, j);
      assert k == 2 + 7 * n + j;
    }
  }

  /** The links of the chain up to and with the first -1. */
  ghost predicate EndsIn(from: Cpu, links: seq<u64>) {
    && |links| > 0 && links[|links| - 1] == ALL_ONES
    && (forall i :: 0 <= i < |links| - 1 ==> links[i] != ALL_ONES)
    && forall i :: 0 <= i < |links| ==> links[i] == LinkAt(from, i)
  }

  /** On a chain that ends, gs:[0] is left at the saved head if that is on the chain, and at -1 if not. */
  lemma UnwindFinite(tr: Trace, links: seq<u64>) returns (t: Cpu)
    requires Entered(tr) && EndsIn(tr.from, links)
    ensures tr.At(t) && t.mem == tr.from.mem && t.regs.r8 == t.teb.exceptionList
    ensures t.teb.exceptionList == if SavedHead(tr.from) in links then SavedHead(tr.from) else ALL_ONES
  {
    hide Reaches, Run, Step, Exec, Rd64, LinkAt, SavedHead, Entered;
    var n := 0;
    while !Stops(tr.from, links[n])
      invariant 0 <= n < |links| && forall i: nat :: i < n ==> !Stops(tr.from, LinkAt(tr.from, i))
      decreases |links| - n
    {
      n := n + 1;
    }
    t := UnwindRun(tr, n);
  }
}
