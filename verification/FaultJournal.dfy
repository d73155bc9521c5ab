/** Which exceptions the root-cause daemon jumps over and what it notes of each, as a function of the exceptions. */
module FaultJournal {
  /** Codes that may be jumped over, and with them the codes that end a run at once. */
  const JUMP_THROUGH: set<int> :=
    {0xC000_0005, 0xC000_001D, 0xC000_0096, 0xC000_008C, 0xC000_008D, 0x8000_0002}
  const TERMINAL: set<int> := JUMP_THROUGH + {0xC000_00FD, 0xC000_0409}

  const STUCK_AT := 3

  datatype Options = Options(maxExc: int, noJump: bool, trace: bool, watch: bool)

  datatype Fault = Fault(code: int, first: bool, rip: int, rsp: int)
  {
    function Key(): (int, int, int) { (rip, rsp, code) }
  }

  datatype Action = Jump | Stop

  datatype Note = Note(n: nat, fault: Fault, action: Action)

  /** How often a key occurs. */
  function Count(fs: seq<Fault>, key: (int, int, int)): nat {
    if |fs| == 0 then 0 else Count(fs[..|fs| - 1], key) + if fs[|fs| - 1].Key() == key then 1 else 0
  }

  /** What is done about the last of the faults so far. */
  function ActionFor(o: Options, fs: seq<Fault>): Action
    requires |fs| > 0
  {
    var f := fs[|fs| - 1];
    if !o.noJump && f.first && f.code in JUMP_THROUGH && |fs| < o.maxExc && Count(fs, f.Key()) < STUCK_AT then Jump
    else Stop
  }

  /** The journal of a run that met these faults. */
  function Journal(o: Options, fs: seq<Fault>): (ns: seq<Note>)
    ensures |ns| == |fs|
  {
    if |fs| == 0 then []
    else Journal(o, fs[..|fs| - 1]) + [Note(|fs|, fs[|fs| - 1], ActionFor(o, fs))]
  }

  lemma OneMore(o: Options, fs: seq<Fault>, f: Fault, key: (int, int, int))
    ensures Count(fs + [f], key) == Count(fs, key) + if f.Key() == key then 1 else 0
    ensures Journal(o, fs + [f]) == Journal(o, fs) + [Note(|fs| + 1, f, ActionFor(o, fs + [f]))]
  {
    assert (fs + [f])[..|fs|] == fs;
  }

  /** The run went on past each of the faults but perhaps the last. */
  ghost predicate Met(o: Options, fs: seq<Fault>) {
    forall k :: 0 < k < |fs| ==> ActionFor(o, fs[..k]) == Jump
  }

  lemma {:induction false} NoteAt(o: Options, fs: seq<Fault>, i: nat)
    requires i < |fs|
    ensures Journal(o, fs)[i] == Note(i + 1, fs[i], ActionFor(o, fs[..i + 1]))
    decreases |fs|
  {
    var n := |fs| - 1;
    if i < n {
      NoteAt(o, fs[..n], i);
      assert fs[..n][..i + 1] == fs[..i + 1];
    } else {
      assert fs[..n + 1] == fs;
    }
  }

  /** The journal is numbered from 1 on, all jumps but perhaps its last note. */
  lemma JumpsThenOneStop(o: Options, fs: seq<Fault>, i: nat)
    requires Met(o, fs) && i < |fs|
    ensures Journal(o, fs)[i].n == i + 1 && (i < |fs| - 1 ==> Journal(o, fs)[i].action == Jump)
  {
    NoteAt(o, fs, i);
  }

  function Jumps(ns: seq<Note>): nat {
    if |ns| == 0 then 0 else Jumps(ns[..|ns| - 1]) + if ns[|ns| - 1].action == Jump then 1 else 0
  }

  /** No more exceptions are jumped than the option allows, less one. */
  lemma {:induction false} JumpsBounded(o: Options, fs: seq<Fault>)
    ensures Jumps(Journal(o, fs)) <= if o.maxExc > 0 then o.maxExc - 1 else 0
    ensures Jumps(Journal(o, fs)) <= |fs|
    decreases |fs|
  {
    if |fs| == 0 {
    } else {
      var n := |fs| - 1;
      JumpsBounded(o, fs[..n]);
      assert Journal(o, fs)[..n] == Journal(o, fs[..n]);
    }
  }

  function JumpsAt(ns: seq<Note>, key: (int, int, int)): nat {
    if |ns| == 0 then 0
    else JumpsAt(ns[..|ns| - 1], key)
         + if ns[|ns| - 1].action == Jump && ns[|ns| - 1].fault.Key() == key then 1 else 0
  }

  /** The same fault at the same place with the same stack is jumped at most twice. */
  lemma {:induction false} TwiceAtMost(o: Options, fs: seq<Fault>, key: (int, int, int))
    ensures JumpsAt(Journal(o, fs), key) <= 2 && JumpsAt(Journal(o, fs), key) <= Count(fs, key)
    decreases |fs|
  {
    if |fs| == 0 {
    } else {
      var n := |fs| - 1;
      TwiceAtMost(o, fs[..n], key);
      assert Journal(o, fs)[..n] == Journal(o, fs[..n]);
    }
  }

  /** Only first-chance faults of the codes listed are jumped, and none when jumping is off. */
  lemma JumpedFault(o: Options, fs: seq<Fault>, i: nat)
    requires i < |fs| && Journal(o, fs)[i].action == Jump
    ensures !o.noJump && fs[i].first && fs[i].code in JUMP_THROUGH && i + 1 < o.maxExc
  {
    NoteAt(o, fs, i);
  }

  lemma {:induction false} CountGrows(fs: seq<Fault>, key: (int, int, int), k: nat)
    requires k <= |fs|
    ensures Count(fs[..k], key) <= Count(fs, key)
    decreases |fs|
  {
    if k < |fs| {
      CountGrows(fs[..|fs| - 1], key, k);
      assert fs[..|fs| - 1][..k] == fs[..k];
    } else {
      assert fs[..k] == fs;
    }
  }

  /** At the last of its occurrences a key has been counted in full, and was still jumped. */
  lemma {:induction false} LastOccurrence(o: Options, fs: seq<Fault>, key: (int, int, int), i: nat)
    requires i < |fs| && fs[i].Key() == key && forall k :: 0 < k <= |fs| ==> ActionFor(o, fs[..k]) == Jump
    ensures Count(fs, key) < STUCK_AT
    decreases |fs|
  {
    var n := |fs| - 1;
    assert fs[..n + 1] == fs;
    if fs[n].Key() != key {
      forall k | 0 < k <= n ensures ActionFor(o, fs[..n][..k]) == Jump { assert fs[..n][..k] == fs[..k]; }
      LastOccurrence(o, fs[..n], key, i);
    }
  }

  lemma PassesAll(o: Options, fs: seq<Fault>)
    requires |fs| > 0
    ensures Met(o, fs) && ActionFor(o, fs) == Jump <==>
              && !o.noJump && |fs| < o.maxExc
              && (forall i :: 0 <= i < |fs| ==> fs[i].first && fs[i].code in JUMP_THROUGH)
              && (forall i :: 0 <= i < |fs| ==> Count(fs, fs[i].Key()) < STUCK_AT)
  {
    assert fs[..|fs|] == fs;
    if Met(o, fs) && ActionFor(o, fs) == Jump {
      forall i | 0 <= i < |fs| ensures fs[i].first && fs[i].code in JUMP_THROUGH && Count(fs, fs[i].Key()) < STUCK_AT {
        NoteAt(o, fs, i);
        JumpedFault(o, fs, i);
        LastOccurrence(o, fs, fs[i].Key(), i);
      }
    }
    if (!o.noJump && |fs| < o.maxExc
        && (forall i :: 0 <= i < |fs| ==> fs[i].first && fs[i].code in JUMP_THROUGH)
        && (forall i :: 0 <= i < |fs| ==> Count(fs, fs[i].Key()) < STUCK_AT)) {
      forall k | 0 < k <= |fs| ensures ActionFor(o, fs[..k]) == Jump {
        CountGrows(fs, fs[k - 1].Key(), k);
      }
    }
  }

  /** A run of faults no longer than the option allows that never repeats a fault three times goes on past them all. */
  lemma GoesOnIff(o: Options, fs: seq<Fault>)
    requires |fs| > 0
    ensures Met(o, fs) && ActionFor(o, fs) == Jump <==>
              && !o.noJump && |fs| < o.maxExc
              && (forall i :: 0 <= i < |fs| ==>
                    fs[i].first
                    && fs[i].code in
                       {0xC000_0005, 0xC000_001D, 0xC000_0096, 0xC000_008C, 0xC000_008D, 0x8000_0002})
              && (forall i :: 0 <= i < |fs| ==> Count(fs, (fs[i].rip, fs[i].rsp, fs[i].code)) < 3)
  {
    hide Count, Met, ActionFor;
    PassesAll(o, fs);
  }
}
