/**
 The daemon's debug loop: what it keeps of the steps it is shown, and the faults it jumps over. Its logs are
 bounded, so they are described as the last entries of what an unbounded log would hold.
 */
module RootCause {
  import opened Wrappers
  import opened FaultJournal

  const MAIN_IMAGE_MAX := 0x40_0000
  const CALL_CAP := 256

  const BREAKPOINT := 0x8000_0003
  const SINGLE_STEP := 0x8000_0004

  /** A thread context, with what the analysis of the instruction at rip says of a call, if there is one. */
  datatype Ctx = Ctx(rip: int, rsp: int, regs: seq<int>, call: Option<int>)

  datatype Event =
    | Created(base: int)
    | Exited
    | Exception(code: int, first: bool, ctx: Ctx)
    | Other

  datatype Frame = Frame(rip: int, rsp: int, regs: seq<int>, inMain: bool, call: Option<int>)

  predicate InMain(base: int, rip: int) { base != 0 && base <= rip < base + MAIN_IMAGE_MAX }

  /** A step inside the image, as it is kept. */
  function MainFrame(c: Ctx): Frame { Frame(c.rip, c.rsp, c.regs, true, c.call) }

  lemma FrameOf(c: Ctx)
    ensures MainFrame(c) == Frame(c.rip, c.rsp, c.regs, true, c.call)
  { }

  predicate AllInMain(main: seq<Frame>) { forall i :: 0 <= i < |main| ==> main[i].inMain }

  lemma LastOfMain(main: seq<Frame>, n: nat)
    requires AllInMain(main)
    ensures var r := Last(main, n); |r| > 0 ==> r[|r| - 1].inMain
  { }

  lemma MoreInMain(main: seq<Frame>, c: Ctx)
    requires AllInMain(main)
    ensures AllInMain(main + [MainFrame(c)])
  { }

  // What a run is, without its buffers.

  /** The loop's control state and all it was ever shown inside the image. */
  datatype Run = Run(
    base: int, initialBp: bool, tracing: bool, steps: nat, main: seq<Frame>, calls: seq<int>, faults: seq<Fault>,
    ended: bool)

  /** A step counts, and adds to what was shown if it is inside the image. */
  function Shown(r: Run, c: Ctx): Run {
    var s := r.(steps := r.steps + 1);
    if !InMain(r.base, c.rip) then s
    else s.(main := r.main + [MainFrame(c)], calls := if c.call.Some? then r.calls + [c.call.value] else r.calls)
  }

  lemma ShownFaults(r: Run, c: Ctx)
    ensures Shown(r, c).faults == r.faults
  { }

  function Next(o: Options, r: Run, e: Event): Run {
    if r.ended then r else
    match e
    case Created(base) => r.(base := base)
    case Exited => r.(ended := true)
    case Other => r
    case Exception(code, first, ctx) =>
      if code == BREAKPOINT && !r.initialBp then r.(initialBp := true)
      else if code == BREAKPOINT then r
      else if code == SINGLE_STEP && r.tracing then Shown(r, ctx)
      else if code in TERMINAL then
        var faults := r.faults + [Fault(code, first, ctx.rip, ctx.rsp)];
        var s := Shown(r, ctx).(faults := faults);
        var t := if Count(faults, Fault(code, first, ctx.rip, ctx.rsp).Key()) >= STUCK_AT then s.(tracing := true)
            else s;
        if ActionFor(o, faults) == Jump then t else t.(ended := true)
      else if code != SINGLE_STEP then r.(ended := true)
      else r
  }

  function After(o: Options, es: seq<Event>): Run {
    if |es| == 0 then Run(0, false, o.trace, 0, [], [], [], false)
    else Next(o, After(o, es[..|es| - 1]), es[|es| - 1])
  }

  lemma AfterOn(o: Options, es: seq<Event>, k: nat)
    requires k < |es|
    ensures After(o, es[..k + 1]) == Next(o, After(o, es[..k]), es[k])
  {
    assert es[..k + 1][..k] == es[..k];
  }

  /** An event adds at most one fault, to a run that goes on, and that goes on after it only if the fault is jumped. */
  lemma NextFaults(o: Options, r: Run, e: Event)
    ensures var s := Next(o, r, e);
            && (s.faults != r.faults ==> !r.ended && |s.faults| == |r.faults| + 1 && s.faults[..|r.faults|] == r.faults)
            && (s.faults != r.faults && !s.ended ==> ActionFor(o, s.faults) == Jump)
            && (!s.ended ==> !r.ended)
  {
    hide ActionFor, Count, Shown;
    if e.Exception? {
      ShownFaults(r, e.ctx);
      var f := Fault(e.code, e.first, e.ctx.rip, e.ctx.rsp);
      assert (r.faults + [f])[..|r.faults|] == r.faults;
    }
  }

  /** Whatever the events, every fault met but the last was jumped, and the run ended with one that was not. */
  lemma {:induction false} FaultsMet(o: Options, es: seq<Event>)
    ensures var r := After(o, es);
            && Met(o, r.faults)
            && (!r.ended && |r.faults| > 0 ==> ActionFor(o, r.faults) == Jump)
  {
    hide Next, ActionFor;
    if |es| == 0 {
    } else {
      var n := |es| - 1;
      FaultsMet(o, es[..n]);
      var r, s := After(o, es[..n]), After(o, es);
      NextFaults(o, r, es[n]);
      forall k | 0 < k < |s.faults| ensures ActionFor(o, s.faults[..k]) == Jump {
        if s.faults == r.faults {
        } else if k == |r.faults| {
          assert s.faults[..k] == r.faults;
        } else {
          assert s.faults[..k] == r.faults[..k];
        }
      }
    }
  }

  lemma {:induction false} EndedStays(o: Options, es: seq<Event>, k: nat)
    requires k <= |es| && (k == |es| || After(o, es[..k]).ended)
    ensures After(o, es) == After(o, es[..k])
    decreases |es|
  {
    if k < |es| {
      var n := |es| - 1;
      assert es[..n][..k] == es[..k];
      EndedStays(o, es[..n], k);
    } else {
      assert es[..k] == es;
    }
  }

  // What the events are, without a run: which are kept, which are faults, and which one ends it.

  /** The exceptions the loop handles by journal: those that may be jumped over, stack overflow and fast fail. */
  predicate MayJump(code: int) {
    code in {0xC000_0005, 0xC000_001D, 0xC000_0096, 0xC000_008C, 0xC000_008D, 0x8000_0002}
  }

  predicate IsFault(code: int) { MayJump(code) || code == 0xC000_00FD || code == 0xC000_0409 }

  /** The base of the image attached to last, 0 if there was none. */
  function BaseOf(es: seq<Event>): int {
    if |es| == 0 then 0 else
    match es[|es| - 1]
    case Created(base) => base
    case _ => BaseOf(es[..|es| - 1])
  }

  function FaultsIn(es: seq<Event>): seq<Fault> {
    if |es| == 0 then [] else
    FaultsIn(es[..|es| - 1]) +
      match es[|es| - 1]
      case Exception(code, first, ctx) => if IsFault(code) then [Fault(code, first, ctx.rip, ctx.rsp)] else []
      case _ => []
  }

  /** A context that was shown, and the base of the image at the time. */
  datatype Shot = Shot(base: int, ctx: Ctx)
  {
    predicate InImage() { base != 0 && base <= ctx.rip < base + 0x40_0000 }
  }

  /** The faults, and with the trace option the single-steps as well. */
  function Shots(o: Options, es: seq<Event>): seq<Shot> {
    if |es| == 0 then [] else
    var before := es[..|es| - 1];
    Shots(o, before) +
      match es[|es| - 1]
      case Exception(code, _, ctx) =>
        if IsFault(code) || (o.trace && code == 0x8000_0004) then [Shot(BaseOf(before), ctx)] else []
      case _ => []
  }

  function FramesOf(shots: seq<Shot>): seq<Frame> {
    if |shots| == 0 then [] else
    var s := shots[|shots| - 1];
    FramesOf(shots[..|shots| - 1]) +
      if s.InImage() then [Frame(s.ctx.rip, s.ctx.rsp, s.ctx.regs, true, s.ctx.call)] else []
  }

  function CallsOf(shots: seq<Shot>): seq<int> {
    if |shots| == 0 then [] else
    var s := shots[|shots| - 1];
    CallsOf(shots[..|shots| - 1]) + if s.InImage() && s.ctx.call.Some? then [s.ctx.call.value] else []
  }

  /** The process goes on past the last of the events. */
  predicate GoesOn(o: Options, es: seq<Event>) {
    |es| > 0 ==>
      match es[|es| - 1]
      case Exited => false
      case Exception(code, first, ctx) =>
        if IsFault(code) then
          && !o.noJump && first && MayJump(code) && |FaultsIn(es)| < o.maxExc
          && Count(FaultsIn(es), (ctx.rip, ctx.rsp, code)) < 3
        else code == 0x8000_0003 || code == 0x8000_0004
      case _ => true
  }

  predicate GoesOnAt(o: Options, es: seq<Event>, k: nat)
    requires k <= |es|
  {
    GoesOn(o, es[..k])
  }

  /** No event but perhaps the last ends the run. */
  ghost predicate Uninterrupted(o: Options, es: seq<Event>) { forall k: nat :: 0 < k < |es| ==> GoesOnAt(o, es, k) }

  /** What a run is of the events it was shown. */
  ghost predicate Describes(o: Options, es: seq<Event>, r: Run) {
    var shots := Shots(o, es);
    && r.base == BaseOf(es) && r.faults == FaultsIn(es)
    && r.steps == |shots| && r.main == FramesOf(shots) && r.calls == CallsOf(shots)
    && (r.ended <==> !GoesOn(o, es))
    && (r.tracing <==> o.trace || exists key :: Count(FaultsIn(es), key) >= 3)
  }

  lemma CodesAgree(code: int)
    ensures IsFault(code) <==> code in TERMINAL
    ensures MayJump(code) <==> code in JUMP_THROUGH
  { }

  lemma FaultsOn(es: seq<Event>, e: Event)
    ensures FaultsIn(es + [e]) == FaultsIn(es) +
              match e
              case Exception(code, first, ctx) => if IsFault(code) then [Fault(code, first, ctx.rip, ctx.rsp)] else []
              case _ => []
    ensures BaseOf(es + [e]) == if e.Created? then e.base else BaseOf(es)
  {
    hide IsFault;
    assert (es + [e])[..|es|] == es;
  }

  lemma ShotsOn(o: Options, es: seq<Event>, e: Event)
    ensures Shots(o, es + [e]) == Shots(o, es) +
              match e
              case Exception(code, _, ctx) =>
                if IsFault(code) || (o.trace && code == 0x8000_0004) then [Shot(BaseOf(es), ctx)] else []
              case _ => []
  {
    hide IsFault;
    assert (es + [e])[..|es|] == es;
  }

  /** Showing one context more. */
  lemma ShownOn(r: Run, shots: seq<Shot>, c: Ctx)
    requires r.steps == |shots| && r.main == FramesOf(shots) && r.calls == CallsOf(shots)
    ensures var all, s := shots + [Shot(r.base, c)], Shown(r, c);
            && s.steps == |all| && s.main == FramesOf(all) && s.calls == CallsOf(all)
            && s == r.(steps := s.steps, main := s.main, calls := s.calls)
  {
    var all := shots + [Shot(r.base, c)];
    assert all[..|all| - 1] == shots;
  }

  lemma NoneThrice(o: Options, fs: seq<Fault>, f: Fault)
    requires (forall key :: Count(fs, key) < 3) && Count(fs + [f], f.Key()) < 3
    ensures forall key :: Count(fs + [f], key) < 3
  {
    hide Count;
    forall key ensures Count(fs + [f], key) < 3 { OneMore(o, fs, f, key); }
  }

  ghost predicate NoneStuck(es: seq<Event>) { forall key :: Count(FaultsIn(es), key) < 3 }

  lemma CodesApart()
    ensures !IsFault(BREAKPOINT) && !IsFault(SINGLE_STEP)
  { }

  /** A fault: kept, noted, and stuck when its key has occurred three times. */
  lemma FaultDescribed(o: Options, es: seq<Event>, r: Run, code: int, first: bool, ctx: Ctx)
    requires Describes(o, es, r) && !r.ended && NoneStuck(es) && IsFault(code)
    ensures var e := Exception(code, first, ctx);
            Describes(o, es + [e], Next(o, r, e)) && (GoesOn(o, es + [e]) ==> NoneStuck(es + [e]))
  {
    hide Count, FaultsIn, Shots, FramesOf, CallsOf, BaseOf, Shown, IsFault, MayJump;
    var e, f := Exception(code, first, ctx), Fault(code, first, ctx.rip, ctx.rsp);
    CodesAgree(code);
    CodesAgree(BREAKPOINT);
    CodesAgree(SINGLE_STEP);
    CodesApart();
    FaultsOn(es, e);
    ShotsOn(o, es, e);
    ShownOn(r, Shots(o, es), ctx);
    var all := r.faults + [f];
    forall key ensures Count(all, key) == Count(r.faults, key) + if f.Key() == key then 1
        else 0 { OneMore(o, r.faults, f, key); }
    assert (exists key :: Count(all, key) >= 3) <==> Count(all, f.Key()) >= 3;
    if Count(all, f.Key()) < 3 { NoneThrice(o, r.faults, f); }
  }

  /** Anything else. */
  lemma OtherDescribed(o: Options, es: seq<Event>, r: Run, e: Event)
    requires Describes(o, es, r) && !r.ended && NoneStuck(es) && !(e.Exception? && IsFault(e.code))
    ensures Describes(o, es + [e], Next(o, r, e)) && NoneStuck(es + [e])
  {
    hide Count, FaultsIn, Shots, FramesOf, CallsOf, BaseOf, Shown, IsFault, MayJump;
    CodesApart();
    FaultsOn(es, e);
    ShotsOn(o, es, e);
    assert r.faults + [] == r.faults && Shots(o, es) + [] == Shots(o, es);
    if e.Exception? {
      CodesAgree(e.code);
      ShownOn(r, Shots(o, es), e.ctx);
    }
  }

  lemma NothingEnds(o: Options, es: seq<Event>)
    requires |es| == 0
    ensures GoesOn(o, es)
  { }

  lemma OnlyEnds(o: Options, es: seq<Event>, r: Run)
    requires Describes(o, es, r)
    ensures r.ended <==> !GoesOn(o, es)
  { }

  /** Up to the event that ends it, a run is what its events say. */
  lemma {:induction false} AfterDescribed(o: Options, es: seq<Event>)
    requires Uninterrupted(o, es)
    ensures Describes(o, es, After(o, es)) && (GoesOn(o, es) ==> NoneStuck(es))
    decreases |es|
  {
    if |es| == 0 {
    } else {
      hide Next, GoesOn, Describes, IsFault;
      var n := |es| - 1;
      var before := es[..n];
      forall k: nat | 0 < k < |before| ensures GoesOnAt(o, before, k) {
        assert before[..k] == es[..k] && GoesOnAt(o, es, k);
      }
      assert GoesOn(o, before) by { if n == 0 { NothingEnds(o, before); } else { assert GoesOnAt(o, es, n); } }
      AfterDescribed(o, before);
      OnlyEnds(o, before, After(o, before));
      assert es == before + [es[n]];
      if es[n].Exception? && IsFault(es[n].code) {
        FaultDescribed(o, before, After(o, before), es[n].code, es[n].first, es[n].ctx);
      } else {
        OtherDescribed(o, before, After(o, before), es[n]);
      }
    }
  }

  /** Only a fault met for the third time switches tracing on, and that fault ends the run. */
  lemma TracingStays(o: Options, es: seq<Event>)
    requires Uninterrupted(o, es) && GoesOn(o, es)
    ensures After(o, es).tracing == o.trace
  {
    hide After, GoesOn, Count, FaultsIn;
    AfterDescribed(o, es);
    assert forall key :: Count(FaultsIn(es), key) < 3;
  }

  /** One event more. */
  lemma OneLonger(o: Options, es: seq<Event>, n: nat)
    requires n < |es| && Uninterrupted(o, es[..n]) && GoesOn(o, es[..n])
    ensures Uninterrupted(o, es[..n + 1]) && After(o, es[..n + 1]) == Next(o, After(o, es[..n]), es[n])
    ensures After(o, es[..n + 1]).ended <==> !GoesOn(o, es[..n + 1])
  {
    hide GoesOn, After, Next, Describes;
    var more := es[..n + 1];
    forall k: nat | 0 < k < n + 1 ensures GoesOnAt(o, more, k) {
      if k < n { assert more[..k] == es[..n][..k] && GoesOnAt(o, es[..n], k); } else { assert more[..k] == es[..n]; }
    }
    AfterOn(o, es, n);
    AfterDescribed(o, more);
    OnlyEnds(o, more, After(o, more));
  }

  lemma NoEvents(o: Options, es: seq<Event>)
    ensures var r := After(o, es[..0]);
            es[..0] == [] && r == Run(0, false, o.trace, 0, [], [], [], false) && Uninterrupted(o, []) && GoesOn(o, [])
  { }

  class Daemon {
    const o: Options
    const cap: nat
    var mainBase: int
    var traceRing: seq<Frame>
    var callLog: seq<int>
    var excLog: seq<Note>
    var traceSteps: nat
    var stuck: map<(int, int, int), nat>

    ghost predicate Counted(fs: seq<Fault>)
      reads this`stuck
    {
      forall key :: Count(fs, key) == if key in stuck then stuck[key] else 0
    }

    /** The buffers hold the last of what was shown; journal and counters are those of the faults met. */
    ghost predicate Matches(r: Run)
      reads this`mainBase, this`traceRing, this`callLog, this`excLog, this`traceSteps, this`stuck
    {
      && cap > 0 && mainBase == r.base && traceSteps == r.steps
      && traceRing == Last(r.main, cap) && AllInMain(r.main)
      && callLog == Last(r.calls, CALL_CAP)
      && excLog == Journal(o, r.faults)
      && Counted(r.faults)
    }

    constructor (o: Options)
      ensures this.o == o && cap == (if o.trace then 512 else 128) && Matches(After(o, []))
    {
      this.o := o;
      cap := if o.trace then 512 else 128;
      mainBase, traceRing, callLog, excLog, traceSteps, stuck := 0, [], [], [], 0, map[];
    }

    /** The call log and the ring are bounded: a full one gives up its oldest entry. */
    method LogCall(call: int, ghost calls: seq<int>)
      requires callLog == Last(calls, CALL_CAP)
      modifies this`callLog
      ensures callLog == Last(calls + [call], CALL_CAP)
    {
      hide Last;
      LastOn(calls, call, CALL_CAP);
      callLog := callLog + [call];
      if |callLog| > CALL_CAP { callLog := callLog[1..]; }
    }

    method LogFrame(frame: Frame, ghost main: seq<Frame>)
      requires cap > 0 && traceRing == Last(main, cap)
      modifies this`traceRing
      ensures traceRing == Last(main + [frame], cap)
    {
      hide Last;
      LastOn(main, frame, cap);
      traceRing := traceRing + [frame];
      if |traceRing| > cap { traceRing := traceRing[1..]; }
    }

    /** Records a step. The ring never gets an external frame to follow, so none ever enters. */
    method RecordStep(c: Ctx, ghost r: Run)
      requires Matches(r)
      modifies this`traceSteps, this`callLog, this`traceRing
      ensures Matches(Shown(r, c))
    {
      hide Last, Journal, Daemon.Counted, AllInMain, MainFrame, InMain;
      LastOfMain(r.main, cap);
      MoreInMain(r.main, c);
      traceSteps := traceSteps + 1;
      var inMain := InMain(mainBase, c.rip);
      var call: Option<int> := None;
      if inMain {
        call := c.call;
        if call.Some? { LogCall(call.value, r.calls); }
      }
      if inMain || (traceRing != [] && !traceRing[|traceRing| - 1].inMain) {
        LogFrame(Frame(c.rip, c.rsp, c.regs, inMain, call), r.main);
        assert inMain ==> Frame(c.rip, c.rsp, c.regs, inMain, call) == MainFrame(c) by { FrameOf(c); }
      }
    }

    method Attach(base: int, ghost r: Run)
      requires Matches(r)
      modifies this`mainBase
      ensures Matches(r.(base := base))
    {
      mainBase := base;
    }

    /** Handles a terminal exception; true when it is jumped over. */
    method Terminal(code: int, first: bool, c: Ctx, excCount: nat, ghost r: Run) returns (jump: bool, isStuck: bool)
      requires Matches(r) && excCount == |r.faults| + 1
      modifies this`traceSteps, this`callLog, this`traceRing, this`stuck, this`excLog
      ensures var f := Fault(code, first, c.rip, c.rsp);
              var faults := r.faults + [f];
              && Matches(Shown(r, c).(faults := faults))
              && jump == (ActionFor(o, faults) == Jump) && isStuck == (Count(faults, f.Key()) >= STUCK_AT)
    {
      hide Last, AllInMain, Journal, Count, Shown;
      ghost var shown := Shown(r, c);
      assert shown.faults == r.faults by { ShownFaults(r, c); }
      RecordStep(c, r);
      var f := Fault(code, first, c.rip, c.rsp);
      ghost var faults := r.faults + [f];
      var key := f.Key();
      OneMore(o, r.faults, f, key);
      stuck := stuck[key := (if key in stuck then stuck[key] else 0) + 1];
      forall k ensures Count(faults, k) == if k in stuck then stuck[k] else 0 { OneMore(o, r.faults, f, k); }
      isStuck := stuck[key] >= STUCK_AT;
      jump := !o.noJump && first && code in JUMP_THROUGH && excCount < o.maxExc && !isStuck;
      excLog := excLog + [Note(excCount, f, if jump then Jump else Stop)];
    }

    /** The loop's local variables agree with the run. */
    ghost predicate Follows(r: Run, initialBp: bool, excCount: nat, tracing: bool)
      reads this`mainBase, this`traceRing, this`callLog, this`excLog, this`traceSteps, this`stuck
    {
      Matches(r) && initialBp == r.initialBp && excCount == |r.faults| && tracing == r.tracing
    }

    /** Whether the run goes on being traced, or at all, is nothing the buffers show. */
    lemma Ends(r: Run, tracing: bool, ended: bool)
      requires Matches(r)
      ensures Matches(r.(tracing := tracing, ended := ended)) && Matches(r.(initialBp := true))
    { }

    /** What the loop does about one exception; false when it ends the run. */
    method OnException(code: int, first: bool, ctx: Ctx, initialBp: bool, excCount: nat, tracing: bool, ghost r: Run)
      returns (bp: bool, count: nat, trace: bool, on: bool)
      requires Follows(r, initialBp, excCount, tracing) && !r.ended
      modifies this
      ensures var s := Next(o, r, Exception(code, first, ctx)); Follows(s, bp, count, trace) && on == !s.ended
    {
      hide Daemon.Matches, ActionFor, Count;
      bp, count, trace, on := initialBp, excCount, tracing, true;
      if code == BREAKPOINT && !initialBp {
        bp := true;
        Ends(r, r.tracing, r.ended);
      } else if code == BREAKPOINT && mainBase != 0 && o.watch {
        // A probe, which keeps a log of its own.
      } else if code == SINGLE_STEP && tracing {
        RecordStep(ctx, r);
      } else if code in TERMINAL {
        count := excCount + 1;
        var isStuck;
        on, isStuck := Terminal(code, first, ctx, count, r);
        if isStuck && !tracing { trace := true; }
        Ends(Shown(r, ctx).(faults := r.faults + [Fault(code, first, ctx.rip, ctx.rsp)]), trace, !on);
      } else if code != BREAKPOINT && code != SINGLE_STEP {
        on := false;
        Ends(r, r.tracing, true);
      }
    }

    /** The buffers hold what the events say. */
    lemma Holds(es: seq<Event>, r: Run)
      requires Matches(r) && Describes(o, es, r)
      ensures var shots := Shots(o, es);
              && traceSteps == |shots| && traceRing == Last(FramesOf(shots), cap)
                 && callLog == Last(CallsOf(shots), 256)
      ensures excLog == Journal(o, FaultsIn(es)) && Counted(FaultsIn(es))
    { }

    /** The debug loop over the events shown. It looks at all of them, or stops at the one that ends the run. */
    method Loop(es: seq<Event>) returns (seen: nat)
      requires Matches(After(o, []))
      modifies this
      ensures seen <= |es| && Matches(After(o, es[..seen])) && Met(o, After(o, es[..seen]).faults)
      ensures seen < |es| ==> After(o, es[..seen]).ended
      ensures After(o, es[..seen]) == After(o, es)
      ensures Uninterrupted(o, es[..seen]) && (seen < |es| ==> !GoesOn(o, es[..seen]))
      ensures var shots := Shots(o, es[..seen]);
              && traceSteps == |shots| && traceRing == Last(FramesOf(shots), cap)
                 && callLog == Last(CallsOf(shots), 256)
      ensures excLog == Journal(o, FaultsIn(es[..seen])) && Counted(FaultsIn(es[..seen]))
    {
      hide Daemon.Matches, Daemon.Counted, After, ActionFor, Count, Shown, Describes, GoesOn, Uninterrupted, Shots,
           FaultsIn,
           FramesOf, CallsOf, Journal, Met, Last;
      NoEvents(o, es);
      seen := 0;
      var initialBp, tracing, on := false, o.trace, true;
      var excCount: nat := 0;
      while seen < |es| && on
        invariant seen <= |es| && on == !After(o, es[..seen]).ended
        invariant Follows(After(o, es[..seen]), initialBp, excCount, tracing)
        invariant Uninterrupted(o, es[..seen]) && (on <==> GoesOn(o, es[..seen]))
      {
        ghost var r := After(o, es[..seen]);
        OneLonger(o, es, seen);
        match es[seen] {
          case Created(base) => Attach(base, r);
          case Exited => on := false; Ends(r, r.tracing, true);
          case Other =>
          case Exception(code, first, ctx) =>
            initialBp, excCount, tracing, on := OnException(code, first, ctx, initialBp, excCount, tracing, r);
        }
        seen := seen + 1;
      }
      AfterDescribed(o, es[..seen]);
      Holds(es[..seen], After(o, es[..seen]));
      FaultsMet(o, es[..seen]);
      EndedStays(o, es, seen);
    }
  }
}
