/**
 How the emulator binds imports: to the exporter that is loaded, and otherwise to a stub that is hooked.
 A stub is two bytes of code at an address of its own, and the hook found at that address is the name it stands
 for. Modules are kept in the order they were first loaded in; one of the same name takes the place of another.
 Slots are 64-bit words of the guest's memory, and an address that does not fit one is refused.
 */
module ImportBinding {
  import opened Wrappers
  import opened Words
  import opened Memory
  import opened AddressSpace

  const STUB_STEP := 32
  const FIRST_STUB := 0x100
  const RETN: byte := 0xC3

  function LowerChar(c: char): char { if 'A' <= c <= 'Z' then c + ' ' else c }

  /** b is a with its capital letters, A to Z, made small. */
  predicate LowersTo(a: string, b: string) {
    && |a| == |b|
    && forall k :: 0 <= k < |a| ==> b[k] as int == a[k] as int + if 'A' <= a[k] <= 'Z' then 32 else 0
  }

  function Lower(s: string): (r: string)
    ensures |r| == |s| && LowersTo(s, r)
  {
    seq(|s|, i requires 0 <= i < |s| => LowerChar(s[i]))
  }

  lemma LowerTwice(s: string)
    ensures Lower(Lower(s)) == Lower(s)
  { }

  /** One import: of a name, or of an ordinal, or of neither; and the address of its slot as the file has it. */
  datatype Import = Import(dll: string, name: string, ordinal: nat, address: int)

  datatype Module = Module(
    name: string, imageBase: int, peBase: int, exports: map<string, int>, imports: seq<Import>)

  /** What is asked for under which name, lower-cased, in which slot. */
  datatype Binding = Binding(slot: int, dll: string, func: string)

  function Digits(n: nat): string {
    if n < 10 then [('0' as int + n) as char] else Digits(n / 10) + [('0' as int + n % 10) as char]
  }

  function Func(i: Import): Option<string> {
    if i.name != "" then Some(i.name)
    else if i.ordinal != 0 then Some("ord_" + Digits(i.ordinal))
    else None
  }

  /** The slot in the image as loaded. */
  function Slot(m: Module, i: Import): int {
    if i.address >= m.peBase then m.imageBase + (i.address - m.peBase) else m.imageBase + i.address
  }

  /** The slots a module has, in order. */
  function Bindings(m: Module, n: nat): seq<Binding>
    requires n <= |m.imports|
  {
    if n == 0 then [] else
    var i := m.imports[n - 1];
    Bindings(m, n - 1) + match Func(i) case None => [] case Some(f) => [Binding(Slot(m, i), Lower(i.dll), f)]
  }

  function AllBindings(modules: seq<Module>, k: nat): seq<Binding>
    requires k <= |modules|
  {
    if k == 0 then [] else AllBindings(modules, k - 1) + Bindings(modules[k - 1], |modules[k - 1].imports|)
  }

  function Find(modules: seq<Module>, name: string): Option<Module> {
    if |modules| == 0 then None else if modules[0].name == name then Some(modules[0]) else Find(modules[1..], name)
  }

  ghost predicate Distinct(modules: seq<Module>) {
    forall i, j :: 0 <= i < j < |modules| ==> modules[i].name != modules[j].name
  }

  /** The address the loaded exporter gives, if there is one. */
  function Exported(modules: seq<Module>, dll: string, func: string): Option<int> {
    match Find(modules, dll)
    case None => None
    case Some(m) => if func in m.exports then Some(m.imageBase + m.exports[func]) else None
  }

  /** Slots are eight bytes long and do not overlap. */
  ghost predicate SlotsApart(bs: seq<Binding>) {
    forall i, j :: 0 <= i < j < |bs| ==> bs[i].slot + 8 <= bs[j].slot || bs[j].slot + 8 <= bs[i].slot
  }

  type Hooks = map<int, (string, string)>

  /** The slot holds the exporter's address, unless that is 0, or else a stub hooked under just that name. */
  ghost predicate Bound(mem: Mem, hooks: Hooks, modules: seq<Module>, b: Binding) {
    match Exported(modules, b.dll, b.func)
    case Some(va) => va == 0 || (0 <= va < 0x1_0000_0000_0000_0000 && Rd64(mem, b.slot) == va)
    case None => Rd64(mem, b.slot) in hooks && hooks[Rd64(mem, b.slot)] == (b.dll, b.func)
  }

  ghost predicate AllBound(mem: Mem, hooks: Hooks, modules: seq<Module>, bs: seq<Binding>) {
    forall i :: 0 <= i < |bs| ==> Bound(mem, hooks, modules, bs[i])
  }

  /** None of the slots lies in lo .. hi-1. */
  ghost predicate SlotsClear(bs: seq<Binding>, lo: int, hi: int) {
    forall i :: 0 <= i < |bs| ==> Clear(bs[i].slot, 8, lo, hi)
  }

  /** Filling one slot leaves the others bound, and a new stub leaves all. */
  lemma BoundPastSlot(mem: Mem, hooks: Hooks, modules: seq<Module>, bs: seq<Binding>, slot: int, v: u64)
    requires AllBound(mem, hooks, modules, bs) && SlotsClear(bs, slot, slot + 8)
    ensures AllBound(Wr64(mem, slot, v), hooks, modules, bs)
  {
    hide Rd64, Wr64, Exported;
    forall i | 0 <= i < |bs| ensures Bound(Wr64(mem, slot, v), hooks, modules, bs[i]) {
      ReadOther64(mem, slot, v, bs[i].slot);
    }
  }

  lemma BoundPastStub(mem: Mem, hooks: Hooks, modules: seq<Module>, bs: seq<Binding>, va: int, h: (string, string))
    requires AllBound(mem, hooks, modules, bs) && SlotsClear(bs, va, va + 2) && va !in hooks
    ensures AllBound(mem[va := INT3][va + 1 := RETN], hooks[va := h], modules, bs)
  {
    var m := mem[va := INT3][va + 1 := RETN];
    assert Agree(mem, m, va, va + 2);
    hide Rd64, Exported, Agree;
    forall i | 0 <= i < |bs| ensures Bound(m, hooks[va := h], modules, bs[i]) {
      ReadAgree(mem, m, va, va + 2, bs[i].slot);
    }
  }

  function Insert(modules: seq<Module>, m: Module): (r: seq<Module>)
    ensures forall i :: 0 <= i < |r| ==> r[i] == m || r[i] in modules
  {
    if |modules| == 0 then [m]
    else if modules[0].name == m.name then [m] + modules[1..]
    else [modules[0]] + Insert(modules[1..], m)
  }

  lemma {:induction false} InsertDistinct(modules: seq<Module>, m: Module)
    requires Distinct(modules)
    ensures Distinct(Insert(modules, m))
  {
    if |modules| == 0 {
    } else {
      var rest := modules[1..];
      assert Distinct(rest);
      assert forall j :: 0 <= j < |rest| ==> rest[j] == modules[j + 1];
      if modules[0].name == m.name {
        assert Insert(modules, m) == [m] + rest;
      } else {
        InsertDistinct(rest, m);
        var r := Insert(rest, m);
        forall j | 0 <= j < |r| ensures r[j].name != modules[0].name {
          if r[j] != m { var k :| 0 <= k < |rest| && rest[k] == r[j]; }
        }
        assert Insert(modules, m) == [modules[0]] + r;
      }
    }
  }

  /** Module m takes the place of any module of its name, and no other goes. */
  ghost predicate Replaces(before: seq<Module>, after: seq<Module>, m: Module) {
    forall x :: x in after <==> x == m || (x in before && x.name != m.name)
  }

  lemma {:induction false} InsertReplaces(modules: seq<Module>, m: Module)
    requires Distinct(modules)
    ensures Replaces(modules, Insert(modules, m), m)
  {
    if |modules| == 0 {
    } else {
      var rest := modules[1..];
      assert forall j :: 0 <= j < |rest| ==> rest[j] == modules[j + 1];
      assert forall x :: x in modules <==> x == modules[0] || x in rest;
      if modules[0].name == m.name {
        forall x | x in rest ensures x.name != m.name { var k :| 0 <= k < |rest| && rest[k] == x; }
        assert forall x :: x in Insert(modules, m) <==> x == m || x in rest;
      } else {
        InsertReplaces(rest, m);
        assert forall x :: x in Insert(modules, m) <==> x == modules[0] || x in Insert(rest, m);
      }
    }
  }

  lemma {:induction false} InsertLast(modules: seq<Module>, m: Module)
    requires forall j :: 0 <= j < |modules| ==> modules[j].name != m.name
    ensures Insert(modules, m) == modules + [m]
  {
    if |modules| == 0 {
    } else {
      InsertLast(modules[1..], m);
    }
  }

  /** A module of a new name goes behind those loaded before it. */
  lemma InsertNew(loads: seq<Module>, i: nat)
    requires Distinct(loads) && i < |loads|
    ensures Insert(loads[..i], loads[i]) == loads[..i + 1]
  {
    forall j | 0 <= j < i ensures loads[..i][j].name != loads[i].name { assert loads[..i][j] == loads[j]; }
    InsertLast(loads[..i], loads[i]);
    assert loads[..i + 1] == loads[..i] + [loads[i]];
  }

  lemma NothingBound(mem: Mem, hooks: Hooks, modules: seq<Module>)
    ensures AllBound(mem, hooks, modules, [])
  { }

  function Imports(modules: seq<Module>, k: nat): nat
    requires k <= |modules|
  {
    if k == 0 then 0 else Imports(modules, k - 1) + |modules[k - 1].imports|
  }

  lemma {:induction false} AllBindingsGrow(modules: seq<Module>, k: nat, n: nat)
    requires k <= n <= |modules|
    ensures AllBindings(modules, k) <= AllBindings(modules, n) && Imports(modules, k) <= Imports(modules, n)
    decreases n
  {
    if k < n { AllBindingsGrow(modules, k, n - 1); }
  }

  lemma BindingsAmong(modules: seq<Module>, k: nat)
    requires k < |modules|
    ensures forall b :: b in Bindings(modules[k], |modules[k].imports|) ==> b in AllBindings(modules, |modules|)
  {
    AllBindingsGrow(modules, k + 1, |modules|);
    var own, all := Bindings(modules[k], |modules[k].imports|), AllBindings(modules, |modules|);
    var upto := AllBindings(modules, k + 1);
    assert upto == AllBindings(modules, k) + own;
    forall b | b in own ensures b in all {
      assert b in upto;
      var i :| 0 <= i < |upto| && upto[i] == b;
      assert all[i] == b;
    }
  }

  lemma {:induction false} FindIs(modules: seq<Module>, m: Module)
    requires Distinct(modules) && m in modules
    ensures Find(modules, m.name) == Some(m)
  {
    var rest := modules[1..];
    assert Distinct(rest);
    var k :| 0 <= k < |modules| && modules[k] == m;
    if k == 0 {
    } else {
      assert modules[0].name != modules[k].name && rest[k - 1] == m;
      FindIs(rest, m);
    }
  }

  lemma {:induction false} FoundIsIn(modules: seq<Module>, name: string)
    ensures match Find(modules, name) case None => true case Some(m) => m in modules && m.name == name
  {
    if |modules| == 0 {
    } else {
      FoundIsIn(modules[1..], name);
    }
  }

  /** What a name resolves to does not depend on the order in which the modules were loaded. */
  lemma OrderDoesNotMatter(ms: seq<Module>, ns: seq<Module>, dll: string, func: string)
    requires Distinct(ms) && Distinct(ns)
    requires forall m :: m in ms <==> m in ns
    ensures Exported(ms, dll, func) == Exported(ns, dll, func)
  {
    hide Find;
    FoundIsIn(ms, dll);
    FoundIsIn(ns, dll);
    match Find(ms, dll)
    case Some(m) => FindIs(ns, m);
    case None =>
      match Find(ns, dll)
      case Some(m) => FindIs(ms, m);
      case None =>
  }

  lemma {:induction false} BindingOfModule(modules: seq<Module>, k: nat, b: Binding)
    requires k <= |modules| && b in AllBindings(modules, k)
    ensures exists m :: m in modules && b in Bindings(m, |m.imports|)
    decreases k
  {
    var m := modules[k - 1];
    if b !in Bindings(m, |m.imports|) {
      BindingOfModule(modules, k - 1, b);
    }
  }

  /**
   Once all imports are resolved, what was loaded determines every slot that names a loaded exporter: after
   two runs that loaded the same modules, in whatever orders and however often they resolved, such a slot
   holds the same address, and any other slot a stub hooked under the same name.
   */
  lemma SlotsDependOnTheSet(mem: Mem, hooks: Hooks, ms: seq<Module>, mem2: Mem, hooks2: Hooks, ns: seq<Module>,
                            b: Binding)
    requires Distinct(ms) && Distinct(ns) && forall m :: m in ms <==> m in ns
    requires AllBound(mem, hooks, ms, AllBindings(ms, |ms|)) && AllBound(mem2, hooks2, ns, AllBindings(ns, |ns|))
    requires b in AllBindings(ms, |ms|)
    ensures match Exported(ms, b.dll, b.func)
            case Some(va) => va != 0 ==> Rd64(mem, b.slot) == Rd64(mem2, b.slot) == va
            case None =>
              && Rd64(mem, b.slot) in hooks && Rd64(mem2, b.slot) in hooks2
              && hooks[Rd64(mem, b.slot)] == hooks2[Rd64(mem2, b.slot)] == (b.dll, b.func)
  {
    OrderDoesNotMatter(ms, ns, b.dll, b.func);
    BindingOfModule(ms, |ms|, b);
    var m: Module :| m in ms && b in Bindings(m, |m.imports|);
    var k :| 0 <= k < |ns| && ns[k] == m;
    BindingsAmong(ns, k);
    hide Exported, Rd64, AllBindings;
    assert Bound(mem, hooks, ms, b) && Bound(mem2, hooks2, ns, b);
  }

  /** An exporter's address, if there is one, fits a slot. */
  predicate Fits(modules: seq<Module>, b: Binding) {
    match Exported(modules, b.dll, b.func)
    case None => true
    case Some(va) => 0 <= va < 0x1_0000_0000_0000_0000
  }

  lemma FitsIs(modules: seq<Module>, b: Binding)
    ensures Fits(modules, b) <==> match Exported(modules, b.dll, b.func)
                                  case None => true
                                  case Some(va) => 0 <= va < 0x1_0000_0000_0000_0000
  { }

  lemma {:induction false} BindingsPrefix(m: Module, i: nat, n: nat)
    requires i <= n <= |m.imports|
    ensures Bindings(m, i) <= Bindings(m, n)
    decreases n
  {
    if i < n { BindingsPrefix(m, i, n - 1); }
  }

  lemma BindingsGrow(m: Module, i: nat, done: seq<Binding>)
    requires i < |m.imports|
    ensures done + Bindings(m, i + 1) <= done + Bindings(m, |m.imports|)
  {
    BindingsPrefix(m, i + 1, |m.imports|);
  }

  lemma BindingsIn(m: Module, i: nat, b: Binding)
    requires i < |m.imports| && b in Bindings(m, i + 1)
    ensures b in Bindings(m, |m.imports|)
  {
    BindingsPrefix(m, i + 1, |m.imports|);
  }

  lemma PrefixApart(bs: seq<Binding>, all: seq<Binding>, lo: int, hi: int)
    requires bs <= all && SlotsApart(all) && SlotsClear(all, lo, hi)
    ensures SlotsApart(bs) && SlotsClear(bs, lo, hi)
  {
    forall i | 0 <= i < |bs| ensures Clear(bs[i].slot, 8, lo, hi) { assert bs[i] == all[i]; }
    forall i, j | 0 <= i < j < |bs| ensures bs[i].slot + 8 <= bs[j].slot || bs[j].slot + 8 <= bs[i].slot {
      assert bs[i] == all[i] && bs[j] == all[j];
    }
  }

  lemma PieceApart(a: seq<Binding>, b: seq<Binding>, all: seq<Binding>, lo: int, hi: int)
    requires a + b <= all && SlotsApart(all) && SlotsClear(all, lo, hi)
    ensures SlotsApart(b) && SlotsClear(b, lo, hi)
  {
    forall i | 0 <= i < |b| ensures Clear(b[i].slot, 8, lo, hi) && b[i] == all[|a| + i] {
      assert (a + b)[|a| + i] == all[|a| + i];
    }
    forall i, j | 0 <= i < j < |b| ensures b[i].slot + 8 <= b[j].slot || b[j].slot + 8 <= b[i].slot {
      assert b[i] == all[|a| + i] && b[j] == all[|a| + j];
    }
  }

  /** An address that does not fit while modules are being loaded does not fit once all are. */
  lemma FitsSoFar(loads: seq<Module>, i: nat)
    requires Distinct(loads) && i < |loads|
    requires exists b :: b in Bindings(loads[i], |loads[i].imports|) && !Fits(loads[..i + 1], b)
    ensures exists b :: b in AllBindings(loads, |loads|) && !Fits(loads, b)
  {
    var b :| b in Bindings(loads[i], |loads[i].imports|) && !Fits(loads[..i + 1], b);
    BindingsAmong(loads, i);
    FoundIsIn(loads[..i + 1], b.dll);
    var m := Find(loads[..i + 1], b.dll).value;
    FindIs(loads, m);
  }

  lemma MulMore(a: nat, b: nat)
    ensures a * b >= 0
  { }

  lemma RoundFits(round: nat, rounds: nat, total: nat)
    requires round < rounds
    ensures (round + 1) * total + total <= (rounds + 1) * total
    ensures (round + 1) * total == round * total + total
  {
    MulMore(rounds - round - 1, total);
    assert (rounds + 1) * total == (round + 1) * total + total + (rounds - round - 1) * total;
  }

  lemma Split(done: seq<Binding>, b: Binding, lo: int, hi: int)
    requires SlotsApart(done + [b]) && SlotsClear(done + [b], lo, hi)
    ensures SlotsClear(done, b.slot, b.slot + 8) && SlotsClear(done, lo, hi) && Clear(b.slot, 8, lo, hi)
  {
    var all := done + [b];
    assert all[|done|] == b;
    forall i | 0 <= i < |done| ensures Clear(done[i].slot, 8, b.slot, b.slot + 8) && Clear(done[i].slot, 8, lo, hi) {
      assert all[i] == done[i];
    }
  }

  lemma BoundMore(mem: Mem, hooks: Hooks, modules: seq<Module>, done: seq<Binding>, b: Binding)
    requires AllBound(mem, hooks, modules, done) && Bound(mem, hooks, modules, b)
    ensures AllBound(mem, hooks, modules, done + [b])
  {
    hide Bound;
  }

  // What it means for an import to be resolved, in terms of the files alone.

  /** What decimal digits stand for. */
  function Value(d: string): int {
    if |d| == 0 then 0 else 10 * Value(d[..|d| - 1]) + (d[|d| - 1] as int - '0' as int)
  }

  /** d is n in decimal, without leading zeros. */
  predicate Numeral(d: string, n: nat) {
    && |d| > 0 && (forall k :: 0 <= k < |d| ==> '0' <= d[k] <= '9')
    && Value(d) == n && (|d| > 1 ==> d[0] != '0')
  }

  /** An import by name asks for the name, one by ordinal for the ordinal's number behind "ord_". */
  ghost predicate AsksFor(i: Import, func: string) {
    if i.name != "" then func == i.name
    else i.ordinal > 0 && exists d: string :: Numeral(d, i.ordinal) && func == "ord_" + d
  }

  /**
   The slot of import i in module m as loaded holds the address at which the module of that name, itself as loaded,
   exports what is asked for; where it exports nothing of the kind, or is not loaded, a stub hooked under just that.
   */
  ghost predicate Resolved(mem: Mem, hooks: Hooks, modules: seq<Module>, m: Module, i: Import) {
    var word := Rd64(mem, m.imageBase + if i.address >= m.peBase then i.address - m.peBase else i.address);
    forall dll, func :: LowersTo(i.dll, dll) && AsksFor(i, func) ==>
      && (forall x :: x in modules && x.name == dll && func in x.exports && x.imageBase + x.exports[func] != 0 ==>
            word == x.imageBase + x.exports[func])
      && ((forall x :: x in modules && x.name == dll ==> func !in x.exports) ==>
            word in hooks && hooks[word] == (dll, func))
  }

  /** Every import of every module is. */
  ghost predicate AllResolved(mem: Mem, hooks: Hooks, modules: seq<Module>) {
    forall m, i :: m in modules && i in m.imports ==> Resolved(mem, hooks, modules, m, i)
  }

  lemma LowersToLower(a: string, b: string)
    requires LowersTo(a, b)
    ensures b == Lower(a)
  {
    forall k | 0 <= k < |a| ensures b[k] == Lower(a)[k] { assert b[k] as int == LowerChar(a[k]) as int; }
  }

  lemma {:induction false} ValueBounds(d: string)
    requires forall k :: 0 <= k < |d| ==> '0' <= d[k] <= '9'
    ensures Value(d) >= 0 && (|d| > 0 && d[0] != '0' ==> Value(d) > 0)
  {
    if |d| == 0 {
    } else {
      ValueBounds(d[..|d| - 1]);
    }
  }

  /** A number has one numeral. */
  lemma {:induction false} NumeralIsDigits(d: string, n: nat)
    requires Numeral(d, n)
    ensures d == Digits(n)
    decreases |d|
  {
    var p, last := d[..|d| - 1], d[|d| - 1] as int - '0' as int;
    if |d| == 1 {
      assert Value(p) == 0;
    } else {
      ValueBounds(p);
      assert n / 10 == Value(p) && n % 10 == last;
      NumeralIsDigits(p, n / 10);
      assert d == p + [d[|d| - 1]];
    }
  }

  /** And it has one. */
  lemma {:induction false} DigitsAreNumeral(n: nat)
    ensures Numeral(Digits(n), n) && (n > 0 ==> Digits(n)[0] != '0')
  {
    if n < 10 {
      assert Value(Digits(n)[..0]) == 0;
    } else {
      DigitsAreNumeral(n / 10);
      var d := Digits(n);
      assert d[..|d| - 1] == Digits(n / 10);
    }
  }

  lemma AsksForFunc(i: Import, func: string)
    ensures AsksFor(i, func) <==> Func(i) == Some(func)
  {
    if i.name == "" && i.ordinal > 0 {
      DigitsAreNumeral(i.ordinal);
      if AsksFor(i, func) {
        var d :| Numeral(d, i.ordinal) && func == "ord_" + d;
        NumeralIsDigits(d, i.ordinal);
      }
    }
  }

  /** An import that asks for something has a binding. */
  lemma {:induction false} HasBinding(m: Module, n: nat, k: nat, func: string)
    requires k < n <= |m.imports| && Func(m.imports[k]) == Some(func)
    ensures Binding(Slot(m, m.imports[k]), Lower(m.imports[k].dll), func) in Bindings(m, n)
    decreases n
  {
    hide Func, Slot, Lower;
    if k < n - 1 { HasBinding(m, n - 1, k, func); }
  }

  /** What `Exported` finds is what the module of that name exports. */
  lemma {:induction false} FindsOnly(modules: seq<Module>, dll: string)
    requires Distinct(modules)
    ensures match Find(modules, dll)
            case Some(x) => x in modules && x.name == dll && forall y :: y in modules && y.name == dll ==> y == x
            case None => forall y :: y in modules ==> y.name != dll
    decreases |modules|
  {
    if |modules| == 0 {
    } else {
      var rest := modules[1..];
      assert forall j :: 0 <= j < |rest| ==> rest[j] == modules[j + 1];
      FindsOnly(rest, dll);
      assert forall y :: y in modules <==> y == modules[0] || y in rest;
      if modules[0].name == dll {
        forall y | y in rest ensures y.name != dll { var k :| 0 <= k < |rest| && rest[k] == y; }
      }
    }
  }

  lemma BoundIsResolved(mem: Mem, hooks: Hooks, modules: seq<Module>, m: Module, k: nat)
    requires Distinct(modules) && k < |m.imports|
    requires AllBound(mem, hooks, modules, Bindings(m, |m.imports|))
    ensures Resolved(mem, hooks, modules, m, m.imports[k])
  {
    hide Rd64, Digits, Distinct, LowersTo, AsksFor, Func, Lower, Find;
    var i := m.imports[k];
    var word := Rd64(mem, Slot(m, i));
    forall dll, func | LowersTo(i.dll, dll) && AsksFor(i, func)
      ensures forall x :: x in modules && x.name == dll && func in x.exports && x.imageBase + x.exports[func] != 0 ==>
                word == x.imageBase + x.exports[func]
      ensures (forall x :: x in modules && x.name == dll ==> func !in x.exports) ==>
                word in hooks && hooks[word] == (dll, func)
    {
      LowersToLower(i.dll, dll);
      AsksForFunc(i, func);
      HasBinding(m, |m.imports|, k, func);
      var b := Binding(Slot(m, i), dll, func);
      var j :| 0 <= j < |Bindings(m, |m.imports|)| && Bindings(m, |m.imports|)[j] == b;
      assert Bound(mem, hooks, modules, b);
      FindsOnly(modules, dll);
    }
  }

  lemma BoundIsAllResolved(mem: Mem, hooks: Hooks, modules: seq<Module>)
    requires Distinct(modules) && AllBound(mem, hooks, modules, AllBindings(modules, |modules|))
    ensures AllResolved(mem, hooks, modules)
  {
    hide Distinct, Resolved, Bound;
    forall m, i | m in modules && i in m.imports ensures Resolved(mem, hooks, modules, m, i) {
      var j :| 0 <= j < |modules| && modules[j] == m;
      var k :| 0 <= k < |m.imports| && m.imports[k] == i;
      BindingsAmong(modules, j);
      forall n | 0 <= n < |Bindings(m, |m.imports|)| ensures Bound(mem, hooks, modules, Bindings(m, |m.imports|)[n]) {
        var b := Bindings(m, |m.imports|)[n];
        assert b in AllBindings(modules, |modules|);
      }
      BoundIsResolved(mem, hooks, modules, m, k);
    }
  }

  class Linker {
    var mem: Mem
    var modules: seq<Module>
    const stubBase: int
    const stubEnd: int
    var stubPtr: int
    var stubHooks: Hooks

    ghost predicate StubsValid()
      reads this`stubPtr, this`stubHooks
    {
      && (forall va :: va in stubHooks ==> stubBase <= va < stubPtr)
      && 0 < stubBase <= stubPtr <= stubEnd <= 0x1_0000_0000_0000_0000
    }

    /** Module names are distinct, and stubs are handed out upwards, each once. */
    ghost predicate Valid()
      reads this`modules, this`stubPtr, this`stubHooks
    {
      Distinct(modules) && StubsValid()
    }

    /** Room for n more stubs, and all of the slots outside the stub area. */
    ghost predicate Room(n: nat, bs: seq<Binding>)
      reads this`stubPtr
    {
      stubPtr + STUB_STEP * n <= stubEnd && SlotsClear(bs, stubBase, stubEnd)
    }

    /** An empty linker with its stubs between the start of their area and the return sled at its end. */
    constructor (mem: Mem, stubBase: int)
      requires 0 < stubBase && stubBase + STUB_SIZE <= 0x1_0000_0000_0000_0000
      ensures Valid() && modules == [] && this.mem == mem && stubHooks == map[]
      ensures this.stubBase == stubBase && stubPtr == stubBase + FIRST_STUB && stubEnd == stubBase + STUB_SIZE - SLED
    {
      this.mem, this.stubBase, stubEnd := mem, stubBase, stubBase + STUB_SIZE - SLED;
      modules, stubPtr, stubHooks := [], stubBase + FIRST_STUB, map[];
    }

    method AllocStub(dll: string, func: string) returns (va: int)
      requires StubsValid() && stubPtr + STUB_STEP <= stubEnd
      modifies this`mem, this`stubPtr, this`stubHooks
      ensures StubsValid() && va == old(stubPtr) && va !in old(stubHooks)
      ensures stubPtr == old(stubPtr) + STUB_STEP && stubHooks == old(stubHooks)[va := (Lower(dll), func)]
      ensures mem == old(mem)[va := INT3][va + 1 := RETN]
    {
      va := stubPtr;
      stubPtr := stubPtr + STUB_STEP;
      mem := mem[va := INT3][va + 1 := RETN];
      stubHooks := stubHooks[va := (Lower(dll), func)];
    }

    /** The exporter's address, or else a new stub; what was bound stays bound. */
    method ResolveImport(dll: string, func: string, ghost done: seq<Binding>) returns (va: int)
      requires StubsValid() && Room(1, done) && AllBound(mem, stubHooks, modules, done)
      modifies this`mem, this`stubPtr, this`stubHooks
      ensures StubsValid() && AllBound(mem, stubHooks, modules, done)
      ensures old(stubPtr) <= stubPtr <= old(stubPtr) + STUB_STEP
      ensures match Exported(modules, dll, func)
              case Some(address) => va == address
              case None => stubBase <= va < stubEnd && va in stubHooks && stubHooks[va] == (Lower(dll), func)
      ensures Distinct(modules) ==>
                && (forall x :: x in modules && x.name == dll && func in x.exports ==>
                    va == x.imageBase + x.exports[func])
                && ((forall x :: x in modules && x.name == dll ==> func !in x.exports) ==>
                      va in stubHooks && LowersTo(dll, stubHooks[va].0) && stubHooks[va].1 == func)
    {
      if Distinct(modules) { FindsOnly(modules, dll); }
      match Exported(modules, dll, func)
      case Some(address) => va := address;
      case None =>
        ghost var before, hooks := mem, stubHooks;
        va := AllocStub(dll, func);
        BoundPastStub(before, hooks, modules, done, va, (Lower(dll), func));
    }

    /** Fills one slot; false when the value does not fit it. */
    method Bind(b: Binding, ghost done: seq<Binding>) returns (ok: bool)
      requires StubsValid() && Room(1, done + [b]) && AllBound(mem, stubHooks, modules, done)
      requires SlotsApart(done + [b]) && Lower(b.dll) == b.dll
      modifies this`mem, this`stubPtr, this`stubHooks
      ensures StubsValid() && old(stubPtr) <= stubPtr <= old(stubPtr) + STUB_STEP
      ensures ok ==> AllBound(mem, stubHooks, modules, done + [b])
      ensures ok <==> match Exported(modules, b.dll, b.func)
                      case None => true
                      case Some(va) => 0 <= va < 0x1_0000_0000_0000_0000
    {
      Split(done, b, stubBase, stubEnd);
      var stub := ResolveImport(b.dll, b.func, done);
      ok := true;
      if stub != 0 {
        if !(0 <= stub < 0x1_0000_0000_0000_0000) { return false; }
        ghost var before := mem;
        mem := Wr64(mem, b.slot, stub);
        BoundPastSlot(before, stubHooks, modules, done, b.slot, stub);
        ReadBack64(before, b.slot, stub);
      }
      BoundMore(mem, stubHooks, modules, done, b);
    }

    /** The imports of one module, in order; false at the first whose address does not fit a slot. */
    method ResolveImports(m: Module, ghost done: seq<Binding>) returns (ok: bool)
      requires StubsValid() && AllBound(mem, stubHooks, modules, done)
      requires var all := done + Bindings(m, |m.imports|); SlotsApart(all) && Room(|m.imports|, all)
      modifies this`mem, this`stubPtr, this`stubHooks
      ensures StubsValid() && stubPtr <= old(stubPtr) + STUB_STEP * |m.imports|
      ensures ok ==> AllBound(mem, stubHooks, modules, done + Bindings(m, |m.imports|))
      ensures ok <==> forall b :: b in Bindings(m, |m.imports|) ==> Fits(modules, b)
    {
      hide AllBound, SlotsApart, SlotsClear, Fits;
      var i := 0;
      ok := true;
      assert done + Bindings(m, 0) == done;
      while i < |m.imports|
        invariant 0 <= i <= |m.imports|
        invariant StubsValid() && stubPtr <= old(stubPtr) + STUB_STEP * i
        invariant AllBound(mem, stubHooks, modules, done + Bindings(m, i))
        invariant forall b :: b in Bindings(m, i) ==> Fits(modules, b)
      {
        var imp := m.imports[i];
        BindingsGrow(m, i, done);
        PrefixApart(done + Bindings(m, i + 1), done + Bindings(m, |m.imports|), stubBase, stubEnd);
        match Func(imp) {
          case Some(func) =>
            var b := Binding(Slot(m, imp), Lower(imp.dll), func);
            LowerTwice(imp.dll);
            assert done + Bindings(m, i + 1) == done + Bindings(m, i) + [b];
            ok := Bind(b, done + Bindings(m, i));
            FitsIs(modules, b);
            if !ok {
              BindingsIn(m, i, b);
              return;
            }
          case None =>
            assert Bindings(m, i + 1) == Bindings(m, i);
        }
        i := i + 1;
      }
    }

    /** Every import of every module, under whatever is loaded now. */
    method ResolveAllImports() returns (ok: bool)
      requires Valid() && SlotsApart(AllBindings(modules, |modules|))
      requires Room(Imports(modules, |modules|), AllBindings(modules, |modules|))
      modifies this`mem, this`stubPtr, this`stubHooks
      ensures Valid() && stubPtr <= old(stubPtr) + STUB_STEP * Imports(modules, |modules|)
      ensures ok ==> AllBound(mem, stubHooks, modules, AllBindings(modules, |modules|))
      ensures ok ==> AllResolved(mem, stubHooks, modules)
      ensures ok <==> forall b :: b in AllBindings(modules, |modules|) ==> Fits(modules, b)
    {
      hide AllBound, SlotsApart, SlotsClear, Fits, Distinct, AllResolved;
      var k := 0;
      ok := true;
      NothingBound(mem, stubHooks, modules);
      while k < |modules|
        invariant 0 <= k <= |modules|
        invariant StubsValid() && stubPtr <= old(stubPtr) + STUB_STEP * Imports(modules, k)
        invariant AllBound(mem, stubHooks, modules, AllBindings(modules, k))
        invariant forall b :: b in AllBindings(modules, k) ==> Fits(modules, b)
      {
        AllBindingsGrow(modules, k + 1, |modules|);
        PrefixApart(AllBindings(modules, k + 1), AllBindings(modules, |modules|), stubBase, stubEnd);
        ok := ResolveImports(modules[k], AllBindings(modules, k));
        if !ok {
          BindingsAmong(modules, k);
          return;
        }
        k := k + 1;
      }
      BoundIsAllResolved(mem, stubHooks, modules);
    }

    /** Loading a module makes it known, in place of one of that name if there is one, and binds its imports. */
    method LoadModule(m: Module) returns (ok: bool)
      requires Valid() && SlotsApart(Bindings(m, |m.imports|)) && Room(|m.imports|, Bindings(m, |m.imports|))
      modifies this
      ensures Valid() && modules == Insert(old(modules), m)
      ensures Replaces(old(modules), modules, m)
      ensures stubPtr <= old(stubPtr) + STUB_STEP * |m.imports|
      ensures ok ==> AllBound(mem, stubHooks, modules, Bindings(m, |m.imports|))
      ensures ok ==> forall i :: i in m.imports ==> Resolved(mem, stubHooks, modules, m, i)
      ensures ok <==> forall b :: b in Bindings(m, |m.imports|) ==> Fits(modules, b)
    {
      hide AllBound, SlotsApart, SlotsClear, Fits, Distinct, Resolved;
      InsertDistinct(modules, m);
      InsertReplaces(modules, m);
      modules := Insert(modules, m);
      NothingBound(mem, stubHooks, modules);
      assert [] + Bindings(m, |m.imports|) == Bindings(m, |m.imports|);
      ok := ResolveImports(m, []);
      if ok {
        forall i | i in m.imports ensures Resolved(mem, stubHooks, modules, m, i) {
          var k :| 0 <= k < |m.imports| && m.imports[k] == i;
          BoundIsResolved(mem, stubHooks, modules, m, k);
        }
      }
    }

    /** Loading one module after another, none in place of another. */
    method LoadAll(loads: seq<Module>) returns (ok: bool)
      requires Valid() && modules == []
      requires Distinct(loads) && SlotsApart(AllBindings(loads, |loads|))
      requires Room(Imports(loads, |loads|), AllBindings(loads, |loads|))
      modifies this
      ensures Valid() && (ok ==> modules == loads)
      ensures stubPtr <= old(stubPtr) + STUB_STEP * Imports(loads, |loads|)
      ensures (forall b :: b in AllBindings(loads, |loads|) ==> Fits(loads, b)) ==> ok
    {
      hide AllBound, SlotsApart, SlotsClear, Fits, Resolved, Replaces, Bound;
      ok := true;
      var i := 0;
      while i < |loads|
        invariant 0 <= i <= |loads| && Valid() && modules == loads[..i]
        invariant stubPtr <= old(stubPtr) + STUB_STEP * Imports(loads, i)
      {
        AllBindingsGrow(loads, i + 1, |loads|);
        PieceApart(AllBindings(loads, i), Bindings(loads[i], |loads[i].imports|), AllBindings(loads, |loads|),
                   stubBase, stubEnd);
        InsertNew(loads, i);
        ok := LoadModule(loads[i]);
        if !ok {
          FitsSoFar(loads, i);
          return;
        }
        i := i + 1;
      }
    }

    /**
     A run: any modules of different names loaded in any order, then all imports resolved any number of times,
     with room for a stub for every import each time. It fails exactly when some exporter's address does not
     fit a slot, and otherwise every slot of every module is bound under the modules loaded.
     */
    method Link(loads: seq<Module>, rounds: nat) returns (ok: bool)
      requires Valid() && modules == [] && rounds > 0
      requires Distinct(loads) && SlotsApart(AllBindings(loads, |loads|))
      requires Room((rounds + 1) * Imports(loads, |loads|), AllBindings(loads, |loads|))
      modifies this
      ensures Valid() && (ok ==> modules == loads)
      ensures ok ==> AllBound(mem, stubHooks, loads, AllBindings(loads, |loads|)) && AllResolved(mem, stubHooks, loads)
      ensures ok <==> forall b :: b in AllBindings(loads, |loads|) ==> Fits(loads, b)
    {
      ghost var total := Imports(loads, |loads|);
      assert (rounds + 1) * total == rounds * total + total;
      ok := LoadAll(loads);
      if !ok { return; }
      var round := 0;
      while round < rounds
        invariant 0 <= round <= rounds && Valid() && modules == loads
        invariant stubPtr <= old(stubPtr) + STUB_STEP * (round * total + total)
        invariant round > 0 ==> AllBound(mem, stubHooks, loads, AllBindings(loads, |loads|))
        invariant round > 0 ==> AllResolved(mem, stubHooks, loads)
        invariant round > 0 ==> forall b :: b in AllBindings(loads, |loads|) ==> Fits(loads, b)
      {
        hide AllBound, SlotsApart, SlotsClear, Fits, Distinct, AllBindings, AllResolved;
        RoundFits(round, rounds, total);
        ok := ResolveAllImports();
        if !ok { return; }
        round := round + 1;
      }
    }
  }
}
