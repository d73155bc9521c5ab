/** The four critical-section shims of one image, called one after another by whatever thread. */
module ShimRuns {
  import opened Words
  import opened Memory
  import opened Machine
  import opened Stepping
  import opened SlotTable
  import opened CsShims

  datatype Shim = Shim(w: World, iat: u64, code: Code)

  /** They share a table; each has a place in the text and an import slot of its own. */
  datatype ShimSet = ShimSet(table: u64, slots: nat, init: Shim, enter: Shim, leave: Shim, delete: Shim)
  {
    function For(op: Op): Shim {
      match op
      case Init(_) => init
      case Enter(_) => enter
      case Leave(_) => leave
      case Delete(_) => delete
    }

    function SiteFor(op: Op): Site { Site(table, For(op).iat, slots) }

    ghost function Table(m: Mem): seq<u64> { Keys(Site(table, 0, slots), m) }

    ghost predicate Built() {
      && InitLoaded(init.code, Site(table, init.iat, slots)) && Confined(init.w)
      && EnterLoaded(enter.code, Site(table, enter.iat, slots))
      && EnterLoaded(leave.code, Site(table, leave.iat, slots))
      && DeleteLoaded(delete.code, Site(table, delete.iat, slots)) && Confined(delete.w)
    }

    /** Where the import slot sends a thread does not change what the table is. */
    lemma TableOf(op: Op, m: Mem)
      ensures Keys(SiteFor(op), m) == Table(m)
    {
      hide Rd64;
      forall i | 0 <= i < slots ensures Keys(SiteFor(op), m)[i] == Table(m)[i] {
        assert SlotAt(SiteFor(op), i) == SlotAt(Site(table, 0, slots), i);
      }
    }
  }

  /** A call of a shim, from its entry to where the thread leaves it: its caller, or the host's Enter or Leave. */
  datatype ShimCall = ShimCall(op: Op, entry: Cpu, exit: Cpu, reply: Reply)
  {
    ghost predicate Admissible(q: ShimSet) { Entry(q.SiteFor(op), entry) && entry.regs.rcx == op.g }

    ghost predicate Happened(q: ShimSet) {
      var shim := q.For(op);
      && Reaches(shim.w, shim.code, entry, exit)
      && Does(q.Table(entry.mem), op, reply) && q.Table(exit.mem) == reply.keys
      && if (op.Enter? || op.Leave?) && reply.slot >= 0 then
           exit.pc == Rd64(entry.mem, shim.iat) - shim.w.text && exit.regs.rcx == HostObject(q.SiteFor(op), reply.slot)
         else CsShims.Returned(shim.w, entry, exit)
    }
  }

  /** From any admissible entry every shim gets there. */
  lemma CallHappens(q: ShimSet, op: Op, entry: Cpu) returns (c: ShimCall)
    requires q.Built() && Entry(q.SiteFor(op), entry) && entry.regs.rcx == op.g
    ensures c.op == op && c.entry == entry && c.Admissible(q) && c.Happened(q)
  {
    hide Reaches, Rd64, Keys, Does, Confined, InitLoaded, EnterLoaded, DeleteLoaded, Entry, CsShims.Returned, Agree,
         HostCalled;
    var shim, p := q.For(op), q.SiteFor(op);
    var tr := Trace(shim.w, shim.code, entry);
    var t, r;
    match op {
      case Init(_) => var o; t, o := InitRun(tr, p); r := o.reply;
      case Delete(_) => var o; t, o := DeleteRun(tr, p); r := o.reply;
      case _ => t, r := EnterRun(tr, p, op);
    }
    q.TableOf(op, entry.mem);
    q.TableOf(op, t.mem);
    c := ShimCall(op, entry, t, r);
  }

  /** Calls one after another, between which nobody writes the table. */
  ghost predicate History(q: ShimSet, cs: seq<ShimCall>) {
    && (forall i :: 0 <= i < |cs| ==> cs[i].Happened(q))
    && (forall i :: 0 < i < |cs| ==> q.Table(cs[i].entry.mem) == q.Table(cs[i - 1].exit.mem))
  }

  function Ops(cs: seq<ShimCall>): (ops: seq<Op>)
    ensures |ops| == |cs| && forall i :: 0 <= i < |cs| ==> ops[i] == cs[i].op
  {
    seq(|cs|, i requires 0 <= i < |cs| => cs[i].op)
  }

  function Replies(cs: seq<ShimCall>): (rs: seq<Reply>)
    ensures |rs| == |cs| && forall i :: 0 <= i < |cs| ==> rs[i] == cs[i].reply
  {
    seq(|cs|, i requires 0 <= i < |cs| => cs[i].reply)
  }

  lemma {:induction false} HistoryIsTableRun(q: ShimSet, cs: seq<ShimCall>)
    requires cs != [] && History(q, cs)
    ensures TableRun(q.Table(cs[0].entry.mem), Ops(cs), Replies(cs))
    ensures Final(q.Table(cs[0].entry.mem), Replies(cs)) == q.Table(cs[|cs| - 1].exit.mem)
    decreases |cs|
  {
    hide Does, Keys, Reaches, Rd64, CsShims.Returned;
    var keys, rest := q.Table(cs[0].entry.mem), cs[1..];
    assert cs[0].Happened(q) && Ops(cs)[0] == cs[0].op && Replies(cs)[0] == cs[0].reply;
    assert Ops(cs)[1..] == Ops(rest) && Replies(cs)[1..] == Replies(rest);
    if rest == [] {
      assert Ops(rest) == [] && Replies(rest) == [];
    } else {
      assert q.Table(cs[1].entry.mem) == q.Table(cs[0].exit.mem);
      forall i | 0 < i < |rest| ensures q.Table(rest[i].entry.mem) == q.Table(rest[i - 1].exit.mem) {
        assert rest[i] == cs[i + 1] && rest[i - 1] == cs[i];
      }
      HistoryIsTableRun(q, rest);
    }
  }

  /**
   However the shims of an image are called, as long as no null guest is passed and only unmapped guests are
   initialised, they act as one partial map from guests to host objects, and no guest is ever mapped twice.
   */
  lemma HistoryRefines(q: ShimSet, cs: seq<ShimCall>, live: map<u64, nat>)
    requires cs != [] && History(q, cs)
    requires Implements(q.Table(cs[0].entry.mem), live) && LegalRun(live, Ops(cs), Replies(cs))
    ensures MapRun(q.slots, live, Ops(cs), Replies(cs)) && Distinct(q.Table(cs[|cs| - 1].exit.mem))
  {
    hide Keys, Implements, LegalRun, MapRun, Distinct, History, TableRun;
    HistoryIsTableRun(q, cs);
    RunRefines(q.Table(cs[0].entry.mem), live, Ops(cs), Replies(cs));
  }
}
