/** Whole runs of exceptions: each that is handled leaves a strictly shorter chain behind. */
module DispatchRuns {
  import opened Wrappers
  import opened Words
  import opened Memory
  import opened Machine
  import opened Stepping
  import opened ScopeTables
  import opened Chains
  import opened VectoredHandler
  import Eh3 = ExceptHandler3

  /** fs are the frames of a chain that starts at `head` and ends. */
  ghost predicate IsChain(m: Mem, head: u64, fs: seq<u64>)
    decreases |fs|
  {
    if fs == [] then !Live(head) else Live(head) && fs[0] == head && IsChain(m, Next(m, head), fs[1..])
  }

  /** The links of the frames fs lie clear of the handler's stack, of the context and of f's try level. */
  ghost predicate LinksApart(fs: seq<u64>, f: u64, ctx: u64, lo: int, hi: int) {
    forall g :: g in fs && g != f ==>
      Clear(g, 8, lo, hi) && Clear(g, 8, ctx, ctx + CTX_SIZE) && Clear(g, 8, f + FRAME_TRYLEVEL, f + FRAME_TRYLEVEL + 4)
  }

  /** The walk's taker is on the chain, and what follows it is a strict suffix. */
  lemma {:induction false} TakerOnChain(w: World, c: Config, teb: Teb, m: Mem, head: u64, addr: u64, n: nat,
                                        fs: seq<u64>)
    returns (j: nat)
    requires Walk(w, c, teb, m, head, addr, n).Some? && IsChain(m, head, fs)
    ensures j < |fs| && fs[j] == Walk(w, c, teb, m, head, addr, n).value
    ensures IsChain(m, Next(m, fs[j]), fs[j + 1..])
    decreases n
  {
    hide Takes, Rd64, Next;
    if Takes(w, c, teb, m, head, addr) {
      j := 0;
    } else {
      var i := TakerOnChain(w, c, teb, m, Next(m, head), addr, n - 1, fs[1..]);
      j := i + 1;
      assert fs[1..][i + 1..] == fs[j + 1..];
    }
  }

  /** A chain is still there when its links read the same. */
  lemma {:induction false} SameChain(m: Mem, n: Mem, head: u64, fs: seq<u64>)
    requires IsChain(m, head, fs) && forall g :: g in fs ==> Next(m, g) == Next(n, g)
    ensures IsChain(n, head, fs)
    decreases |fs|
  {
    hide Rd64, Next;
    if fs == [] {
    } else {
      assert forall g :: g in fs[1..] ==> g in fs;
      SameChain(m, n, Next(m, head), fs[1..]);
    }
  }

  lemma {:induction false} SuffixChain(m: Mem, head: u64, fs: seq<u64>, j: nat)
    requires IsChain(m, head, fs) && j < |fs|
    ensures IsChain(m, fs[j], fs[j..])
    decreases j
  {
    hide Rd64, Next;
    if j > 0 {
      SuffixChain(m, Next(m, head), fs[1..], j - 1);
      assert fs[1..][j - 1..] == fs[j..];
    } else {
      assert fs[0..] == fs;
    }
  }

  lemma {:induction false} ChainIsUnique(m: Mem, head: u64, fs: seq<u64>, gs: seq<u64>)
    requires IsChain(m, head, fs) && IsChain(m, head, gs)
    ensures |fs| == |gs|
    decreases |fs|
  {
    hide Rd64, Next;
    if fs == [] {
    } else {
      ChainIsUnique(m, Next(m, head), fs[1..], gs[1..]);
    }
  }

  /** A chain that ends visits no frame twice. */
  lemma {:induction false} NoRepeats(m: Mem, head: u64, fs: seq<u64>, i: nat, j: nat)
    requires IsChain(m, head, fs) && i < j < |fs|
    ensures fs[i] != fs[j]
    decreases |fs|
  {
    hide Rd64, Next;
    if i > 0 {
      NoRepeats(m, Next(m, head), fs[1..], i - 1, j - 1);
    } else if fs[0] == fs[j] {
      SuffixChain(m, head, fs, j);
      ChainIsUnique(m, head, fs, fs[j..]);
    }
  }

  /** One exception: the state the handler was entered in and the one it returned. */
  datatype Episode = Episode(w: World, before: Cpu, after: Cpu)

  ghost function Taker(c: Config, e: Episode): Option<u64> {
    Walk(e.w, c, e.before.teb, e.before.mem, e.before.teb.exceptionList, FaultAddress(e.before), MAX_LINKS)
  }

  /** The links of the chain lie apart from what a dispatch entered in s writes. */
  ghost predicate ChainApart(w: World, c: Config, s: Cpu) {
    forall fs :: IsChain(s.mem, s.teb.exceptionList, fs) ==>
      match Walk(w, c, s.teb, s.mem, s.teb.exceptionList, FaultAddress(s), MAX_LINKS)
      case Some(f) => LinksApart(fs, f, Context(s), s.regs.rsp - DEPTH, s.regs.rsp)
      case None => forall g :: g in fs ==> Clear(g, 8, s.regs.rsp - DEPTH, s.regs.rsp)
  }

  /** The episode is a dispatch, as `VectoredRun` describes them, on a chain apart from what it writes. */
  ghost predicate Dispatch(c: Config, e: Episode) {
    Dispatched(e.w, c, e.before, e.after, Taker(c, e)) && ChainApart(e.w, c, e.before)
  }

  /** Every run of the handler from an admissible entry is one. */
  lemma DispatchHappens(tr: Trace, c: Config) returns (e: Episode)
    requires Assumed(tr, c) && ChainApart(tr.w, c, tr.from)
    ensures e.w == tr.w && e.before == tr.from && tr.At(e.after) && Eh3.Returned(tr.w, tr.from, e.after)
    ensures Dispatch(c, e)
  {
    hide Reaches, Assumed, ChainApart, Dispatched, Walk, Eh3.Returned;
    var t := VectoredRun(tr, c);
    e := Episode(tr.w, tr.from, t);
  }

  /** Between two exceptions frames may be unregistered, from the head on, but none is added. */
  ghost predicate NoRegistration(s: Cpu, t: Cpu) {
    forall fs :: IsChain(s.mem, s.teb.exceptionList, fs) ==>
      exists k: nat :: k <= |fs| && IsChain(t.mem, t.teb.exceptionList, fs[k..])
  }

  ghost predicate Run(c: Config, es: seq<Episode>) {
    && (forall i :: 0 <= i < |es| ==> Dispatch(c, es[i]))
    && (forall i :: 0 < i < |es| ==> NoRegistration(es[i - 1].after, es[i].before))
  }

  ghost function HandledCount(c: Config, es: seq<Episode>): nat {
    if es == [] then 0 else (if Taker(c, es[0]).Some? then 1 else 0) + HandledCount(c, es[1..])
  }

  /** What a dispatch leaves of the chain: all of it, or what follows the taker. */
  lemma DispatchShortens(c: Config, e: Episode, fs: seq<u64>) returns (gs: seq<u64>)
    requires Dispatch(c, e) && IsChain(e.before.mem, e.before.teb.exceptionList, fs)
    ensures IsChain(e.after.mem, e.after.teb.exceptionList, gs)
    ensures match Taker(c, e)
            case Some(f) => exists j: nat :: j < |fs| && fs[j] == f && gs == fs[j + 1..]
            case None => gs == fs
  {
    hide Rd64, Walk, Selects, Taken, Agree;
    var s := e.before;
    var lo: int, hi: int := s.regs.rsp - DEPTH, s.regs.rsp;
    match Taker(c, e) {
      case None =>
        gs := fs;
        forall g | g in fs ensures Next(s.mem, g) == Next(e.after.mem, g) {
          ReadAgree(s.mem, e.after.mem, lo, hi, g);
        }
        SameChain(s.mem, e.after.mem, s.teb.exceptionList, fs);
      case Some(f) =>
        var j := TakerOnChain(e.w, c, s.teb, s.mem, s.teb.exceptionList, FaultAddress(s), MAX_LINKS, fs);
        gs := fs[j + 1..];
        var k :| Selects(e.w, c.ib, s.mem, f, FaultAddress(s), k)
          && Agree(Taken(c.ib, s.mem, f, Context(s), Table(s.mem, f), k), e.after.mem, lo, hi);
        forall g | g in gs ensures Next(s.mem, g) == Next(e.after.mem, g) {
          var i :| 0 <= i < |gs| && gs[i] == g;
          NoRepeats(s.mem, s.teb.exceptionList, fs, j, j + 1 + i);
          assert fs[j + 1 + i] == g && g in fs && fs[j] == f;
          assert LinksApart(fs, f, Context(s), lo, hi);
          TakenApart(c.ib, s.mem, f, Context(s), Table(s.mem, f), k, g);
          ReadAgree(Taken(c.ib, s.mem, f, Context(s), Table(s.mem, f), k), e.after.mem, lo, hi, g);
        }
        SameChain(s.mem, e.after.mem, Next(s.mem, f), gs);
    }
  }

  /** In any run, no more exceptions are handled than there are frames on the chain it starts with. */
  lemma {:induction false} HandledAtMostChain(c: Config, es: seq<Episode>, fs: seq<u64>)
    requires es != [] && Run(c, es) && IsChain(es[0].before.mem, es[0].before.teb.exceptionList, fs)
    ensures HandledCount(c, es) <= |fs|
    decreases |es|
  {
    hide Dispatch, Taker, IsChain;
    var gs := DispatchShortens(c, es[0], fs);
    if |es| > 1 {
      assert NoRegistration(es[0].after, es[1].before);
      var k: nat :| k <= |gs| && IsChain(es[1].before.mem, es[1].before.teb.exceptionList, gs[k..]);
      assert Run(c, es[1..]) by {
        forall i | 0 < i < |es[1..]| ensures NoRegistration(es[1..][i - 1].after, es[1..][i].before) {
          assert es[1..][i - 1] == es[i] && es[1..][i] == es[i + 1];
        }
      }
      HandledAtMostChain(c, es[1..], gs[k..]);
    } else {
      assert HandledCount(c, es[1..]) == 0;
    }
  }
}
