/** The single-step tracer and its process, as functions on their joint state, and why tracing changes nothing. */
module Tracing {
  import opened Wrappers
  import opened Words
  import opened Memory

  const IMAGE_SPAN := 0x200000

  /** An address without a byte cannot be read; the rest of the registers is of no interest to the tracer. */
  datatype Config = Config(rip: int, rsp: int, rbp: int, rest: seq<int>, mem: Mem)

  /** What executing an instruction other than int3 leads to. `Raise` is for any other kind of exception. */
  datatype Outcome = Next(c: Config) | Raise(code: int, first: bool, c: Config) | Gone

  /** The process image, the options, and, for each number of steps, whether the wild-branch check stops. */
  datatype World = World(
    exec: Config -> Outcome, base: int, entryRva: int, pass: set<int>, ringMax: int, wild: int -> bool)
  {
    predicate InMain(a: int) { base != 0 && base <= a < base + IMAGE_SPAN }

    function Entry(): int { if entryRva != 0 then base + entryRva else 0 }
  }

  predicate AtInt3(c: Config) { c.rip in c.mem && c.mem[c.rip] == INT3 }

  /**
   One instruction of the process under a debugger that does nothing but continue: breakpoints of its own
   and the benign exceptions are passed over; None when it exits or faults.
   */
  function Untraced(w: World, c: Config): Option<Config> {
    if AtInt3(c) then Some(c.(rip := c.rip + 1)) else
    match w.exec(c)
    case Next(d) => Some(d)
    case Raise(code, first, d) => if first && code in w.pass then Some(d) else None
    case Gone => None
  }

  function UntracedRun(w: World, c: Config, n: nat): Option<Config> {
    if n == 0 then Some(c) else
    match UntracedRun(w, c, n - 1)
    case None => None
    case Some(d) => Untraced(w, d)
  }

  // The tracer.

  datatype Position = Position(rva: int, rsp: int, rbp: int)

  /** The tracer's variables; a saved byte is absent or one byte long. */
  datatype Vars = Vars(
    bpAddr: int, bpOrig: seq<byte>, entryBp: int, entryOrig: seq<byte>,
    tracing: bool, firstBpSeen: bool, steps: nat, ring: seq<Position>)

  datatype State = State(c: Config, tf: bool, v: Vars)

  function ReadByte(m: Mem, a: int): seq<byte> { if a in m then [m[a]] else [] }

  function WriteByte(s: State, a: int, data: seq<byte>): State {
    if |data| == 1 then s.(c := s.c.(mem := s.c.mem[a := data[0]])) else s
  }

  function SetTf(s: State, on: bool): State { s.(tf := on) }

  function ArmBp(s: State, a: int): State {
    var orig := ReadByte(s.c.mem, a);
    if |orig| == 1 then WriteByte(s.(v := s.v.(bpAddr := a, bpOrig := orig)), a, [INT3]) else s
  }

  function ClearBp(s: State): State {
    var t := if s.v.bpAddr != 0 then WriteByte(s, s.v.bpAddr, s.v.bpOrig) else s;
    t.(v := t.v.(bpAddr := 0, bpOrig := []))
  }

  /** The process is created: the entry breakpoint is planted if there is to be one. */
  function Created(w: World, c: Config): State {
    var v := Vars(0, [], 0, [], false, false, 0, []);
    if w.entryRva == 0 then State(c, false, v) else
    var orig := ReadByte(c.mem, w.base + w.entryRva);
    var t := State(c, false, v.(entryBp := w.base + w.entryRva, entryOrig := orig));
    if |orig| == 1 then WriteByte(t, w.base + w.entryRva, [INT3]) else t
  }

  function OnBreakpoint(s: State, addr: int): State {
    if !s.v.firstBpSeen then
      var t := s.(v := s.v.(firstBpSeen := true));
      if s.v.entryBp == 0 then SetTf(t.(v := t.v.(tracing := true)), true) else t
    else if s.v.entryBp != 0 && addr == s.v.entryBp then
      var t := WriteByte(s, s.v.entryBp, s.v.entryOrig);
      SetTf(t.(c := t.c.(rip := addr), v := t.v.(entryBp := 0, tracing := true)), true)
    else if s.v.bpAddr != 0 && addr == s.v.bpAddr then
      var t := ClearBp(s);
      var u := t.(c := t.c.(rip := addr));
      if u.v.tracing then SetTf(u, true) else u
    else s
  }

  /** Appending to the ring, which then gives up its oldest entry if it is too long. */
  function Ringed(ring: seq<Position>, p: Position, ringMax: int): seq<Position> {
    var r := ring + [p];
    if |r| > ringMax then r[1..] else r
  }

  function ReadBytes(m: Mem, a: int, n: nat): Option<int>
    decreases n
  {
    if n == 0 then Some(0)
    else if a !in m then None
    else match ReadBytes(m, a + 1, n - 1)
      case None => None
      case Some(high) => Some(m[a] + 0x100 * high)
  }

  /** The quad word at a; 0 when it cannot be read. */
  function ReadQword(m: Mem, a: int): int {
    match ReadBytes(m, a, 8)
    case None => 0
    case Some(q) => q
  }

  function OnSingleStep(w: World, s: State): Option<State> {
    var t := s.(v := s.v.(steps := s.v.steps + 1));
    var c := s.c;
    if w.InMain(c.rip) then
      var ring := Ringed(t.v.ring, Position(c.rip - w.base, c.rsp, c.rbp), w.ringMax);
      Some(SetTf(t.(v := t.v.(ring := ring)), true))
    else if w.wild(t.v.steps) then None
    else
      var ret := ReadQword(c.mem, c.rsp);
      var u := SetTf(t, false);
      Some(if w.InMain(ret) then ArmBp(u, ret) else u)
  }

  /** One instruction of the process and what the tracer does about it; None when tracing ends. */
  function TracedStep(w: World, s: State): Option<State> {
    if AtInt3(s.c) then Some(OnBreakpoint(s.(c := s.c.(rip := s.c.rip + 1)), s.c.rip)) else
    match w.exec(s.c)
    case Next(d) => if s.tf then OnSingleStep(w, s.(c := d, tf := false)) else Some(s.(c := d))
    case Raise(code, first, d) => if first && code in w.pass then Some(s.(c := d)) else None
    case Gone => None
  }

  function Traced(w: World, c: Config, n: nat): Option<State> {
    if n == 0 then Some(Created(w, c)) else
    match Traced(w, c, n - 1)
    case None => None
    case Some(s) => TracedStep(w, s)
  }

  // What the tracer needs of the process.

  function Patch(c: Config, p: int): Config { c.(mem := c.mem[p := INT3]) }

  predicate Same(c: Config, d: Config, p: int) { p in c.mem && p in d.mem && c.mem[p] == d.mem[p] }

  /** Executing c neither reads nor writes the byte at p. */
  ghost predicate Oblivious(w: World, c: Config, p: int) {
    match w.exec(c)
    case Next(d) => w.exec(Patch(c, p)) == Next(Patch(d, p)) && Same(c, d, p)
    case Raise(code, first, d) => w.exec(Patch(c, p)) == Raise(code, first, Patch(d, p)) && Same(c, d, p)
    case Gone => w.exec(Patch(c, p)) == Gone
  }

  predicate ReturnSite(w: World, c: Config, p: int) {
    !w.InMain(c.rip) && w.InMain(p) && ReadQword(c.mem, c.rsp) == p && p in c.mem
  }

  /** Addresses that may be patched: the entry, and returns into the image from outside it. */
  ghost predicate Site(w: World, c0: Config, p: int) {
    || (p == w.Entry() && p != 0)
    || exists n: nat :: UntracedRun(w, c0, n).Some? && ReturnSite(w, UntracedRun(w, c0, n).value, p)
  }

  /** Patched bytes are only looked at by executing at them. */
  ghost predicate Unaware(w: World, c0: Config) {
    forall n: nat, p: int ::
      UntracedRun(w, c0, n).Some? && Site(w, c0, p) && UntracedRun(w, c0, n).value.rip != p ==>
        Oblivious(w, UntracedRun(w, c0, n).value, p)
  }

  /** A breakpoint of its own (the loader's) comes before the process first gets to its entry. */
  ghost predicate LoaderFirst(w: World, c0: Config) {
    forall n: nat ::
      UntracedRun(w, c0, n).Some? && UntracedRun(w, c0, n).value.rip == w.Entry() && w.Entry() != 0 ==>
        exists k: nat :: k < n && UntracedRun(w, c0, k).Some? && AtInt3(UntracedRun(w, c0, k).value)
  }

  ghost predicate Patchable(w: World, c0: Config) {
    w.base > 0 && (w.entryRva != 0 ==> w.Entry() != 0 && w.Entry() in c0.mem) && Unaware(w, c0)
  }

  ghost predicate Traceable(w: World, c0: Config) { Patchable(w, c0) && LoaderFirst(w, c0) }

  // Invariants.

  /** The one patched address, 0 if there is none. */
  function Patched(s: State): int { if s.v.entryBp != 0 then s.v.entryBp else s.v.bpAddr }

  function Saved(s: State): seq<byte> { if s.v.entryBp != 0 then s.v.entryOrig else s.v.bpOrig }

  /**
   The process is where the untraced one, c, is after n instructions; its memory differs at most in one
   int3, whose original byte is saved; and while there is a patch nothing is single-stepped.
   */
  ghost predicate Mirrors(w: World, c0: Config, s: State, c: Config) {
    && (if Patched(s) == 0 then s.c == c
        else
          && s.c == Patch(c, Patched(s)) && Patched(s) in c.mem && Saved(s) == [c.mem[Patched(s)]]
          && Site(w, c0, Patched(s)) && !s.tf)
    && (s.v.entryBp != 0 ==> s.v.bpAddr == 0 && s.v.entryBp == w.Entry() && !s.v.tracing)
    && (s.v.bpAddr != 0 ==> s.v.tracing && w.InMain(s.v.bpAddr))
    && (s.tf ==> s.v.tracing) && (s.v.tracing ==> s.v.firstBpSeen)
    && (!s.v.firstBpSeen ==> s.v.entryBp == w.Entry())
  }

  ghost predicate Inv(w: World, c0: Config, s: State, n: nat) {
    && UntracedRun(w, c0, n).Some? && Mirrors(w, c0, s, UntracedRun(w, c0, n).value)
    && (!s.v.firstBpSeen ==>
          forall k: nat :: k < n ==> UntracedRun(w, c0, k).Some? && !AtInt3(UntracedRun(w, c0, k).value))
  }

  lemma PatchUndone(c: Config, p: int)
    requires p in c.mem
    ensures Patch(c, p).mem[p := c.mem[p]] == c.mem
    ensures Patch(c, p).(mem := c.mem) == c
  { }

  lemma CreatedInv(w: World, c0: Config)
    requires Patchable(w, c0)
    ensures Inv(w, c0, Created(w, c0), 0)
  { }

  /** At a patch: the tracer undoes it and the process stays where it was. */
  lemma HitInv(w: World, c0: Config, s: State, n: nat)
    requires Traceable(w, c0) && Inv(w, c0, s, n) && Patched(s) != 0 && s.c.rip == Patched(s)
    ensures TracedStep(w, s).Some? && Inv(w, c0, TracedStep(w, s).value, n)
    ensures Patched(TracedStep(w, s).value) == 0
  {
    var c := UntracedRun(w, c0, n).value;
    PatchUndone(c, Patched(s));
    assert s.v.firstBpSeen;
  }

  /** Elsewhere while there is a patch: the process runs free, and one int3 of its own may pass. */
  lemma FreeInv(w: World, c0: Config, s: State, n: nat)
    requires Patchable(w, c0) && Inv(w, c0, s, n) && Patched(s) != 0 && s.c.rip != Patched(s)
    ensures TracedStep(w, s).Some? <==> UntracedRun(w, c0, n + 1).Some?
    ensures TracedStep(w, s).Some? ==> Inv(w, c0, TracedStep(w, s).value, n + 1)
    ensures TracedStep(w, s).Some? ==> Patched(TracedStep(w, s).value) == Patched(s)
  {
    var c, p := UntracedRun(w, c0, n).value, Patched(s);
    assert UntracedRun(w, c0, n + 1) == Untraced(w, c);
    if !AtInt3(c) { assert Oblivious(w, c, p); }
  }

  /** Without a patch the two processes step alike. */
  lemma BareInv(w: World, c0: Config, s: State, n: nat)
    requires Patchable(w, c0) && Inv(w, c0, s, n) && Patched(s) == 0
    ensures TracedStep(w, s).Some? ==> UntracedRun(w, c0, n + 1).Some? && Inv(w, c0, TracedStep(w, s).value, n + 1)
    ensures UntracedRun(w, c0, n + 1).Some? && TracedStep(w, s) == None ==> s.tf && w.wild(s.v.steps + 1)
  {
    var c := UntracedRun(w, c0, n).value;
    assert UntracedRun(w, c0, n + 1) == Untraced(w, c);
    if TracedStep(w, s).Some? && s.tf && !AtInt3(c) && w.exec(c).Next? {
      var d := w.exec(c).c;
      assert ReturnSite(w, d, ReadQword(d.mem, d.rsp)) ==> Site(w, c0, ReadQword(d.mem, d.rsp));
    }
  }

  // Whole runs.

  /**
   Tracing is transparent: after k steps of the traced process the untraced one has an n, at least about
   half of k, at which it is in the same state, up to one int3 that hides a saved byte.
   */
  lemma {:induction false} Transparent(w: World, c0: Config, k: nat) returns (n: nat)
    requires Traceable(w, c0) && Traced(w, c0, k).Some?
    ensures Inv(w, c0, Traced(w, c0, k).value, n) && n <= k
    ensures k <= 2 * n + if Patched(Traced(w, c0, k).value) == 0 then 1 else 0
    decreases k
  {
    hide Mirrors, Unaware, LoaderFirst, OnSingleStep, OnBreakpoint;
    if k == 0 {
      n := 0;
      CreatedInv(w, c0);
    } else {
      var s := Traced(w, c0, k - 1).value;
      n := Transparent(w, c0, k - 1);
      if Patched(s) != 0 && s.c.rip == Patched(s) {
        HitInv(w, c0, s, n);
      } else {
        if Patched(s) != 0 { FreeInv(w, c0, s, n); } else { BareInv(w, c0, s, n); }
        n := n + 1;
      }
    }
  }

  /** And it goes on as long as the untraced process does, unless the wild-branch check stops it. */
  lemma Continues(w: World, c0: Config, s: State, n: nat)
    requires Traceable(w, c0) && Inv(w, c0, s, n) && UntracedRun(w, c0, n + 1).Some?
    ensures TracedStep(w, s).Some? || (s.tf && w.wild(s.v.steps + 1))
  {
    hide Mirrors, Unaware, LoaderFirst, TracedStep;
    if Patched(s) != 0 {
      if s.c.rip == Patched(s) { HitInv(w, c0, s, n); } else { FreeInv(w, c0, s, n); }
    } else {
      BareInv(w, c0, s, n);
    }
  }

  /** Before the first int3, the entry's included, the traced process keeps step with the untraced one. */
  lemma {:induction false} BeforeEntry(w: World, c0: Config, n: nat)
    requires Patchable(w, c0) && w.entryRva != 0 && UntracedRun(w, c0, n).Some?
    requires forall k: nat :: k < n ==> UntracedRun(w, c0, k).Some?
    requires forall k: nat :: k < n ==>
               !AtInt3(UntracedRun(w, c0, k).value) && UntracedRun(w, c0, k).value.rip != w.Entry()
    ensures Traced(w, c0, n).Some? && Inv(w, c0, Traced(w, c0, n).value, n)
    ensures !Traced(w, c0, n).value.v.firstBpSeen && Patched(Traced(w, c0, n).value) == w.Entry()
    decreases n
  {
    hide Unaware;
    if n == 0 {
      CreatedInv(w, c0);
    } else {
      BeforeEntry(w, c0, n - 1);
      FreeInv(w, c0, Traced(w, c0, n - 1).value, n - 1);
    }
  }

  /**
   LoaderFirst cannot be dropped: a process that gets to its entry before any breakpoint of its own loses
   the first byte of its entry instruction, and the entry stays patched.
   */
  lemma EntryFirstIsSkipped(w: World, c0: Config, n: nat)
    requires Patchable(w, c0) && w.entryRva != 0
    requires UntracedRun(w, c0, n).Some? && UntracedRun(w, c0, n).value.rip == w.Entry()
    requires forall k: nat :: k < n ==> UntracedRun(w, c0, k).Some?
    requires forall k: nat :: k < n ==>
               !AtInt3(UntracedRun(w, c0, k).value) && UntracedRun(w, c0, k).value.rip != w.Entry()
    ensures Traced(w, c0, n + 1).Some?
    ensures Traced(w, c0, n + 1).value.c == Patch(UntracedRun(w, c0, n).value, w.Entry()).(rip := w.Entry() + 1)
    ensures !Traced(w, c0, n + 1).value.tf
  {
    BeforeEntry(w, c0, n);
    hide Unaware;
  }

  predicate RestoresEntry(s: State, t: Option<State>) {
    && t.Some? && |s.v.entryOrig| == 1
    && t.value.c == s.c.(mem := s.c.mem[s.v.entryBp := s.v.entryOrig[0]]) && t.value.v.entryBp == 0
  }

  /** Whenever the process executes the int3 at its entry, the tracer puts the entry's byte back and rewinds to it. */
  ghost predicate EntryRestored(w: World, c0: Config) {
    forall k: nat :: Traced(w, c0, k).Some? ==>
      var s := Traced(w, c0, k).value;
      s.v.entryBp != 0 && s.c.rip == s.v.entryBp ==> RestoresEntry(s, TracedStep(w, s))
  }

  lemma HitRestores(w: World, c0: Config, s: State, n: nat)
    requires Traceable(w, c0) && Inv(w, c0, s, n) && s.v.entryBp != 0 && s.c.rip == s.v.entryBp
    ensures RestoresEntry(s, TracedStep(w, s))
  {
    assert s.v.firstBpSeen;
  }

  lemma {:induction false} RunsBefore(w: World, c0: Config, k: nat, n: nat)
    requires k <= n && UntracedRun(w, c0, n).Some?
    ensures UntracedRun(w, c0, k).Some?
    decreases n
  {
    hide Untraced;
    if k == n {
    } else {
      RunsBefore(w, c0, k, n - 1);
    }
  }

  /** The first of the instructions up to the n-th at which the process stands at its entry. */
  lemma {:induction false} FirstArrival(w: World, c0: Config, n: nat) returns (m: nat)
    requires UntracedRun(w, c0, n).Some? && UntracedRun(w, c0, n).value.rip == w.Entry()
    ensures m <= n && UntracedRun(w, c0, m).Some? && UntracedRun(w, c0, m).value.rip == w.Entry()
    ensures forall k: nat :: k < m ==> UntracedRun(w, c0, k).Some? && UntracedRun(w, c0, k).value.rip != w.Entry()
    decreases n
  {
    hide Untraced;
    forall k: nat | k <= n ensures UntracedRun(w, c0, k).Some? { RunsBefore(w, c0, k, n); }
    if k: nat :| k < n && UntracedRun(w, c0, k).value.rip == w.Entry() {
      m := FirstArrival(w, c0, k);
    } else {
      m := n;
    }
  }

  /** At an arrival that no int3 precedes the tracer does not rewind. */
  lemma SkipsEntry(w: World, c0: Config, n: nat)
    requires Patchable(w, c0) && w.entryRva != 0
    requires UntracedRun(w, c0, n).Some? && UntracedRun(w, c0, n).value.rip == w.Entry()
    requires forall k: nat :: k < n ==> UntracedRun(w, c0, k).Some? && !AtInt3(UntracedRun(w, c0, k).value)
    ensures !EntryRestored(w, c0)
  {
    hide Unaware;
    var m := FirstArrival(w, c0, n);
    BeforeEntry(w, c0, m);
    EntryFirstIsSkipped(w, c0, m);
    var s := Traced(w, c0, m).value;
    assert s.c.rip == s.v.entryBp && s.v.entryBp != 0;
    assert !RestoresEntry(s, TracedStep(w, s));
  }

  /** The entry's breakpoint does its work exactly when the loader's comes first. */
  lemma EntryRestoredIff(w: World, c0: Config)
    requires Patchable(w, c0)
    ensures EntryRestored(w, c0) <==> LoaderFirst(w, c0)
  {
    hide Unaware, Mirrors, RestoresEntry, TracedStep, AtInt3, UntracedRun;
    if LoaderFirst(w, c0) {
      forall k: nat | Traced(w, c0, k).Some? && Traced(w, c0, k).value.v.entryBp != 0
          && Traced(w, c0, k).value.c.rip == Traced(w, c0, k).value.v.entryBp
        ensures RestoresEntry(Traced(w, c0, k).value, TracedStep(w, Traced(w, c0, k).value))
      {
        var n := Transparent(w, c0, k);
        HitRestores(w, c0, Traced(w, c0, k).value, n);
      }
    } else {
      var n: nat :| UntracedRun(w, c0, n).Some? && UntracedRun(w, c0, n).value.rip == w.Entry() && w.Entry() != 0
        && !exists k: nat :: k < n && UntracedRun(w, c0, k).Some? && AtInt3(UntracedRun(w, c0, k).value);
      forall k: nat | k < n ensures UntracedRun(w, c0, k).Some? { RunsBefore(w, c0, k, n); }
      SkipsEntry(w, c0, n);
    }
  }

  // The ring.

  /** The single-step position a step reports, if it reports one in the image. */
  function Stepped(w: World, s: State): (r: seq<Position>)
    ensures |r| <= 1
  {
    if !s.tf || AtInt3(s.c) then [] else
    match w.exec(s.c)
    case Next(d) => if w.InMain(d.rip) then [Position(d.rip - w.base, d.rsp, d.rbp)] else []
    case _ => []
  }

  /** All of them so far. */
  function History(w: World, c: Config, k: nat): seq<Position> {
    if k == 0 || Traced(w, c, k - 1) == None then [] else History(w, c, k - 1) + Stepped(w, Traced(w, c, k - 1).value)
  }

  lemma RingStep(w: World, s: State, h: seq<Position>)
    requires s.v.ring == Last(h, Kept(w.ringMax)) && TracedStep(w, s).Some?
    ensures TracedStep(w, s).value.v.ring == Last(h + Stepped(w, s), Kept(w.ringMax))
  {
    hide Last, ReadQword;
    assert h + [] == h;
    if s.tf && !AtInt3(s.c) && w.exec(s.c).Next? {
      var d := w.exec(s.c).c;
      LastOn(h, Position(d.rip - w.base, d.rsp, d.rbp), w.ringMax);
    }
  }

  /** The ring is always the last ringMax of the image positions single-stepped so far. */
  lemma {:induction false} RingIsLast(w: World, c: Config, k: nat)
    requires Traced(w, c, k).Some?
    ensures Traced(w, c, k).value.v.ring == Last(History(w, c, k), Kept(w.ringMax))
    decreases k
  {
    if k == 0 {
    } else {
      RingIsLast(w, c, k - 1);
      RingStep(w, Traced(w, c, k - 1).value, History(w, c, k - 1));
    }
  }

  /** Position i of the history is where the untraced process was after log[i] instructions. */
  ghost predicate Logs(w: World, c0: Config, h: seq<Position>, log: seq<nat>, n: nat) {
    && |log| == |h|
    && (forall i :: 0 <= i < |log| ==> log[i] <= n && UntracedRun(w, c0, log[i]).Some?)
    && (forall i, j :: 0 <= i < j < |log| ==> log[i] < log[j])
    && (forall i :: 0 <= i < |log| ==>
          var c := UntracedRun(w, c0, log[i]).value;
          w.InMain(c.rip) && h[i] == Position(c.rip - w.base, c.rsp, c.rbp))
  }

  lemma NothingLogged(w: World, c0: Config)
    ensures Logs(w, c0, [], [], 0)
  { }

  lemma CreatedMirrors(w: World, c0: Config)
    requires Traceable(w, c0)
    ensures Inv(w, c0, Created(w, c0), 0)
  {
    CreatedInv(w, c0);
  }

  lemma HitsAreNotSteps(w: World, c0: Config, s: State, n: nat)
    requires Inv(w, c0, s, n) && Patched(s) != 0
    ensures Stepped(w, s) == []
  { }

  lemma LogOn(w: World, c0: Config, h: seq<Position>, log: seq<nat>, n: nat, step: seq<Position>) returns (on: seq<nat>)
    requires Logs(w, c0, h, log, n) && |step| <= 1
    requires step != [] ==>
               && UntracedRun(w, c0, n + 1).Some?
               && var c := UntracedRun(w, c0, n + 1).value;
                  w.InMain(c.rip) && step == [Position(c.rip - w.base, c.rsp, c.rbp)]
    ensures Logs(w, c0, h + step, on, n + 1)
  {
    hide UntracedRun;
    on := if step == [] then log else log + [n + 1];
    if step == [] { assert h + step == h; }
  }

  lemma StepsWithRun(w: World, c0: Config, s: State, n: nat)
    requires Inv(w, c0, s, n) && Stepped(w, s) != []
    ensures UntracedRun(w, c0, n + 1).Some?
    ensures var c := UntracedRun(w, c0, n + 1).value;
            w.InMain(c.rip) && Stepped(w, s) == [Position(c.rip - w.base, c.rsp, c.rbp)]
  {
    assert UntracedRun(w, c0, n + 1) == Untraced(w, s.c);
  }

  /** The history is a subsequence of the untraced run. */
  lemma {:induction false} HistoryIsOfTheRun(w: World, c0: Config, k: nat) returns (n: nat, log: seq<nat>)
    requires Traceable(w, c0) && Traced(w, c0, k).Some?
    ensures Inv(w, c0, Traced(w, c0, k).value, n) && Logs(w, c0, History(w, c0, k), log, n)
    decreases k
  {
    hide Unaware, LoaderFirst, TracedStep, UntracedRun, Mirrors, Logs, Stepped;
    if k == 0 {
      n, log := 0, [];
      NothingLogged(w, c0);
      CreatedMirrors(w, c0);
    } else {
      var s := Traced(w, c0, k - 1).value;
      n, log := HistoryIsOfTheRun(w, c0, k - 1);
      if Patched(s) != 0 && s.c.rip == Patched(s) {
        HitInv(w, c0, s, n);
        assert History(w, c0, k) == History(w, c0, k - 1) by { HitsAreNotSteps(w, c0, s, n); }
      } else {
        if Patched(s) != 0 { FreeInv(w, c0, s, n); } else { BareInv(w, c0, s, n); }
        if Stepped(w, s) != [] { StepsWithRun(w, c0, s, n); }
        log := LogOn(w, c0, History(w, c0, k - 1), log, n, Stepped(w, s));
        n := n + 1;
      }
    }
  }
}
