/** The critical-section table, whose slot i holds a guest (0 when free), and the partial map it implements. */
module SlotTable {
  import opened Words

  /** Slot i of the table is the first that holds g. */
  predicate FirstHolding(keys: seq<u64>, g: u64, i: nat) {
    i < |keys| && keys[i] == g && g !in keys[..i]
  }

  /** Slot i is where an Init of g stops: the first that holds g or is free. */
  predicate FirstUsable(keys: seq<u64>, g: u64, i: nat) {
    i < |keys| && (keys[i] == g || keys[i] == 0) && g !in keys[..i] && 0 !in keys[..i]
  }

  datatype Op = Init(g: u64) | Enter(g: u64) | Leave(g: u64) | Delete(g: u64)

  /** The table after an operation, and the slot whose host object it was passed on to. */
  datatype Reply = Reply(keys: seq<u64>, slot: int)

  const NO_SLOT := -1

  /** r is what the shim for op does with the table. */
  ghost predicate Does(keys: seq<u64>, op: Op, r: Reply) {
    if op.Init? then
      if exists i :: FirstUsable(keys, op.g, i) then
        r.slot >= 0 && FirstUsable(keys, op.g, r.slot) && r.keys == keys[r.slot := op.g]
      else r == Reply(keys, NO_SLOT)
    else if exists i :: FirstHolding(keys, op.g, i) then
      && r.slot >= 0 && FirstHolding(keys, op.g, r.slot)
      && r.keys == if op.Delete? then keys[r.slot := 0] else keys
    else r == Reply(keys, NO_SLOT)
  }

  /** No guest is mapped twice. */
  ghost predicate Distinct(keys: seq<u64>) {
    forall i, j :: 0 <= i < j < |keys| && keys[i] != 0 ==> keys[i] != keys[j]
  }

  // The partial map the table stands for: live guests and the slots of their host objects.

  ghost predicate Implements(keys: seq<u64>, live: map<u64, nat>) {
    && Distinct(keys)
    && (forall g :: g in live ==> g != 0 && live[g] < |keys| && keys[live[g]] == g)
    && (forall i :: 0 <= i < |keys| && keys[i] != 0 ==> keys[i] in live && live[keys[i]] == i)
  }

  /** The answer the map allows for an operation on a table of n slots. */
  ghost predicate Allows(n: nat, live: map<u64, nat>, op: Op, slot: int) {
    match op
    case Init(g) =>
      if |live| < n then 0 <= slot < n && slot !in live.Values else slot == NO_SLOT
    case _ => slot == if op.g in live then live[op.g] else NO_SLOT
  }

  ghost function After(live: map<u64, nat>, op: Op, slot: int): map<u64, nat> {
    match op
    case Init(g) => if slot >= 0 then live[g := slot] else live
    case Delete(g) => live - {g}
    case _ => live
  }

  /** What callers owe: no null guest, and Init only of guests that are not mapped. */
  predicate Legal(live: map<u64, nat>, op: Op) {
    op.g != 0 && (op.Init? ==> op.g !in live)
  }

  ghost function Used(keys: seq<u64>): set<nat> {
    set i: nat | i < |keys| && keys[i] != 0
  }

  ghost function Upto(n: nat): (s: set<nat>)
    ensures forall i: nat :: i in s <==> i < n
  {
    if n == 0 then {} else Upto(n - 1) + {n - 1}
  }

  lemma {:induction false} UptoSize(n: nat)
    ensures |Upto(n)| == n
  {
    if n == 0 {
    } else {
      UptoSize(n - 1);
    }
  }

  /** An injective map has as many keys as values. */
  lemma {:induction false} InjectiveSize(live: map<u64, nat>)
    requires forall g, h :: g in live && h in live && live[g] == live[h] ==> g == h
    ensures |live| == |live.Values|
    decreases |live|
  {
    if live == map[] {
      assert live.Values == {};
    } else {
      var g :| g in live;
      var rest := live - {g};
      assert live.Keys == rest.Keys + {g};
      assert live.Values == rest.Values + {live[g]} by {
        forall v | v in live.Values ensures v in rest.Values + {live[g]} {
          var h :| h in live && live[h] == v;
          if h != g { assert h in rest && rest[h] == v; }
        }
        assert g in live;
      }
      assert live[g] !in rest.Values;
      InjectiveSize(rest);
    }
  }

  lemma SubsetSize(a: set<nat>, b: set<nat>)
    requires a <= b
    ensures |a| <= |b| && (a != b ==> |a| < |b|)
  {
    assert b == a + (b - a);
    if a != b { assert b - a != {}; }
  }

  /** A slot is free exactly when fewer guests are live than there are slots. */
  lemma FreeIffRoom(keys: seq<u64>, live: map<u64, nat>)
    requires Implements(keys, live)
    ensures 0 in keys <==> |live| < |keys|
    ensures |live| <= |keys|
  {
    assert live.Values == Used(keys) by {
      forall i | i in Used(keys) ensures i in live.Values { assert keys[i] in live; }
    }
    InjectiveSize(live);
    UptoSize(|keys|);
    assert Used(keys) <= Upto(|keys|);
    SubsetSize(Used(keys), Upto(|keys|));
    if 0 in keys {
      var i :| 0 <= i < |keys| && keys[i] == 0;
      assert i in Upto(|keys|) && i !in Used(keys);
    } else {
      assert Used(keys) == Upto(|keys|);
    }
  }

  lemma {:induction false} FirstIndex(keys: seq<u64>, wanted: set<u64>) returns (i: nat)
    requires exists k :: k in keys && k in wanted
    ensures i < |keys| && keys[i] in wanted && forall k :: k in keys[..i] ==> k !in wanted
  {
    if keys[0] in wanted {
      i := 0;
    } else {
      assert keys == [keys[0]] + keys[1..];
      i := FirstIndex(keys[1..], wanted);
      i := i + 1;
      assert keys[..i] == [keys[0]] + keys[1..][..i - 1];
    }
  }

  lemma SomeUsable(keys: seq<u64>, g: u64)
    ensures (exists i :: FirstUsable(keys, g, i)) <==> g in keys || 0 in keys
    ensures (exists i :: FirstHolding(keys, g, i)) <==> g in keys
  {
    if g in keys || 0 in keys {
      var i := FirstIndex(keys, {g, 0});
      assert FirstUsable(keys, g, i);
    }
    if g in keys {
      var i := FirstIndex(keys, {g});
      assert FirstHolding(keys, g, i);
    }
  }

  /** A scan that stopped at the first slot holding the guest, or found none, answers as Enter, Leave and Delete do. */
  lemma ScanAnswers(keys: seq<u64>, op: Op, found: int)
    requires !op.Init?
    requires if found >= 0 then FirstHolding(keys, op.g, found) else found == NO_SLOT && op.g !in keys
    ensures Does(keys, op, Reply(if found >= 0 && op.Delete? then keys[found := 0] else keys, found))
  {
    SomeUsable(keys, op.g);
  }

  /** Every operation on the table is the same operation on the map. */
  lemma OperationRefines(keys: seq<u64>, live: map<u64, nat>, op: Op, r: Reply)
    requires Implements(keys, live) && Legal(live, op) && Does(keys, op, r)
    ensures Allows(|keys|, live, op, r.slot)
    ensures Implements(r.keys, After(live, op, r.slot)) && |r.keys| == |keys|
  {
    FreeIffRoom(keys, live);
    SomeUsable(keys, op.g);
    if op.g in keys {
      var i :| 0 <= i < |keys| && keys[i] == op.g;
      assert op.g in live;
    } else {
      assert op.g !in live;
    }
  }

  /** The replies are those of the shims, one operation after another. */
  ghost predicate TableRun(keys: seq<u64>, ops: seq<Op>, rs: seq<Reply>)
    decreases |ops|
  {
    |ops| == |rs| && (ops != [] ==> Does(keys, ops[0], rs[0]) && TableRun(rs[0].keys, ops[1..], rs[1..]))
  }

  ghost predicate LegalRun(live: map<u64, nat>, ops: seq<Op>, rs: seq<Reply>)
    decreases |ops|
  {
    |ops| == |rs| && (ops != [] ==> Legal(live, ops[0]) && LegalRun(After(live, ops[0], rs[0].slot), ops[1..], rs[1..]))
  }

  ghost predicate MapRun(n: nat, live: map<u64, nat>, ops: seq<Op>, rs: seq<Reply>)
    decreases |ops|
  {
    |ops| == |rs| && (ops != [] ==>
      Allows(n, live, ops[0], rs[0].slot) && MapRun(n, After(live, ops[0], rs[0].slot), ops[1..], rs[1..]))
  }

  /** The table after a run. */
  ghost function Final(keys: seq<u64>, rs: seq<Reply>): seq<u64>
    decreases |rs|
  {
    if rs == [] then keys else Final(rs[0].keys, rs[1..])
  }

  /** Over every legal run the table answers as the map does and its guests stay distinct. */
  lemma {:induction false} RunRefines(keys: seq<u64>, live: map<u64, nat>, ops: seq<Op>, rs: seq<Reply>)
    requires Implements(keys, live) && TableRun(keys, ops, rs) && LegalRun(live, ops, rs)
    ensures MapRun(|keys|, live, ops, rs) && Distinct(Final(keys, rs)) && |Final(keys, rs)| == |keys|
    decreases |ops|
  {
    if ops == [] {
    } else {
      OperationRefines(keys, live, ops[0], rs[0]);
      RunRefines(rs[0].keys, After(live, ops[0], rs[0].slot), ops[1..], rs[1..]);
    }
  }

  /**
   Init keeps the guests distinct exactly when the guest is not mapped yet, or is mapped in front of
   every free slot: re-initialising a live guest behind a freed slot maps it a second time.
   */
  lemma InitKeepsDistinctIff(keys: seq<u64>, g: u64, r: Reply)
    requires g != 0 && Distinct(keys) && Does(keys, Init(g), r)
    ensures Distinct(r.keys) <==> !exists i, j :: 0 <= i < j < |keys| && keys[i] == 0 && keys[j] == g
  {
    SomeUsable(keys, g);
    if i, j :| 0 <= i < j < |keys| && keys[i] == 0 && keys[j] == g {
      assert keys[i] in keys && g in keys;
      assert FirstUsable(keys, g, r.slot);
      assert r.slot <= i;
      assert r.keys[r.slot] == g == r.keys[j];
    } else if r.slot >= 0 && keys[r.slot] == 0 {
      assert forall j :: 0 <= j < r.slot ==> keys[j] != g;
    }
  }

  /** For instance: guest 5 is mapped behind a freed slot, initialised again, and deleted once. */
  lemma ReinitDuplicates()
    ensures Does([0, 5], Init(5), Reply([5, 5], 0))
    ensures Does([5, 5], Delete(5), Reply([0, 5], 0)) && FirstHolding([0, 5], 5, 1)
  {
    assert FirstUsable([0, 5], 5, 0);
    assert [0, 5][0 := 5] == [5, 5];
    assert FirstHolding([5, 5], 5, 0);
    assert [5, 5][0 := 0] == [0, 5];
  }
}
