/**
 The import section of the shim: written field by field into one buffer, and read back the way the PE
 format's '.idata' section is walked.
 */
module ImportTable {
  import opened Wrappers
  import opened Words
  import opened Bytes

  // Reading.

  datatype Import = Import(name: seq<byte>, slot: int)

  /** One descriptor: the module's name, the bound slots, and the names in its lookup table. */
  datatype Library = Library(dll: seq<byte>, imports: seq<Import>, lookup: seq<Import>)

  function Field(blob: seq<byte>, off: int, n: nat): Option<nat> {
    if 0 <= off && off + n <= |blob| then Some(Unpack(blob[off..off + n])) else None
  }

  /** The bytes from off up to the first zero. */
  function CString(blob: seq<byte>, off: int): Option<seq<byte>>
    decreases |blob| - off
  {
    if off < 0 || off >= |blob| then None
    else if blob[off] == 0 then Some([])
    else match CString(blob, off + 1)
      case None => None
      case Some(s) => Some([blob[off]] + s)
  }

  /** The imports of a thunk table at off, up to its zero entry; imports by ordinal have no name. */
  function Thunks(blob: seq<byte>, base: int, off: int): Option<seq<Import>>
    decreases |blob| - off
  {
    match Field(blob, off, 8)
    case None => None
    case Some(thunk) =>
      if thunk == 0 then Some([]) else
      match Thunks(blob, base, off + 8)
      case None => None
      case Some(rest) =>
        if thunk >= 0x8000_0000_0000_0000 then Some(rest)
        else match CString(blob, thunk - base + 2)
          case None => None
          case Some(s) => Some([Import(s, base + off)] + rest)
  }

  /** The libraries of the descriptor table at off, up to its zero entry. */
  function Walk(blob: seq<byte>, base: int, off: nat): Option<seq<Library>>
    decreases |blob| - off
  {
    match (Field(blob, off, 4), Field(blob, off + 12, 4), Field(blob, off + 16, 4))
    case (Some(oft), Some(name), Some(ft)) =>
      if oft == 0 && name == 0 then Some([]) else (
      match (CString(blob, name - base), Thunks(blob, base, ft - base), Thunks(blob, base, oft - base),
             Walk(blob, base, off + 20))
      case (Some(dll), Some(imports), Some(lookup), Some(rest)) => Some([Library(dll, imports, lookup)] + rest)
      case _ => None)
    case _ => None
  }

  // Layout.

  const DESC_SIZE := 40
  const ILT_OFF := DESC_SIZE

  function IatOff(names: seq<seq<byte>>): nat { ILT_OFF + (|names| + 1) * 8 }

  /** Where the hint of the i-th name is; past the last, where the module's name is. */
  function HintOff(names: seq<seq<byte>>, i: nat): (o: nat)
    requires i <= |names|
    ensures o >= IatOff(names) + (|names| + 1) * 8 + 3 * i
  {
    if i == 0 then IatOff(names) + (|names| + 1) * 8 else HintOff(names, i - 1) + |names[i - 1]| + 3
  }

  function Total(names: seq<seq<byte>>, dll: seq<byte>): nat { HintOff(names, |names|) + |dll| + 1 }

  lemma {:induction false} HintsAscend(names: seq<seq<byte>>, i: nat, j: nat)
    requires i < j <= |names|
    ensures HintOff(names, i) + |names[i]| + 3 <= HintOff(names, j)
    decreases j
  {
    if i < j - 1 { HintsAscend(names, i, j - 1); }
  }

  /** A two-byte hint, the name and its terminator. */
  function Hint(name: seq<byte>): seq<byte> { [0, 0] + name + [0] }

  /** The bytes of field stand at off. */
  ghost predicate Holds(blob: seq<byte>, off: int, field: seq<byte>) {
    0 <= off && off + |field| <= |blob| && blob[off..off + |field|] == field
  }

  /** Entry j of either table once n imports are written. */
  function Entry(base: int, names: seq<seq<byte>>, n: nat, j: nat): (e: seq<byte>)
    requires n <= |names| && base + DESC_SIZE >= 0
    ensures |e| == 8
  {
    Pack(if j < n then base + HintOff(names, j) else 0, 8)
  }

  ghost predicate Tables(blob: seq<byte>, base: int, names: seq<seq<byte>>, n: nat)
    requires n <= |names| && base + DESC_SIZE >= 0
  {
    forall j: nat :: j <= |names| ==>
      && Holds(blob, ILT_OFF + 8 * j, Entry(base, names, n, j))
      && Holds(blob, IatOff(names) + 8 * j, Entry(base, names, n, j))
  }

  ghost predicate Hints(blob: seq<byte>, names: seq<seq<byte>>, n: nat)
    requires n <= |names|
  {
    forall i: nat :: i < n ==> Holds(blob, HintOff(names, i), Hint(names[i]))
  }

  /** The only descriptor, and the zero one behind it. */
  ghost predicate Described(blob: seq<byte>, base: int, names: seq<seq<byte>>)
    requires base + DESC_SIZE >= 0
  {
    && Holds(blob, 0, Pack(base + ILT_OFF, 4))
    && Holds(blob, 12, Pack(base + HintOff(names, |names|), 4))
    && Holds(blob, 16, Pack(base + IatOff(names), 4))
    && Holds(blob, 20, Pack(0, 4)) && Holds(blob, 32, Pack(0, 4)) && Holds(blob, 36, Pack(0, 4))
  }

  lemma HoldsElsewhere(blob: seq<byte>, at: nat, field: seq<byte>, off: int, other: seq<byte>)
    requires at + |field| <= |blob| && Holds(blob, off, other)
    requires off + |other| <= at || at + |field| <= off
    ensures Holds(Splice(blob, at, field), off, other)
  {
    SpliceElsewhere(blob, at, field, off, off + |other|);
  }

  /** The imports one expects: the names in order, eight bytes apart from table on. */
  function Slots(names: seq<seq<byte>>, table: int): (r: seq<Import>)
    ensures |r| == |names| && forall i :: 0 <= i < |r| ==> r[i] == Import(names[i], table + 8 * i)
  {
    seq(|names|, i requires 0 <= i < |names| => Import(names[i], table + 8 * i))
  }

  lemma {:induction false} CStringReads(blob: seq<byte>, off: int, s: seq<byte>)
    requires Holds(blob, off, s + [0]) && 0 !in s
    ensures CString(blob, off) == Some(s)
    decreases |s|
  {
    assert blob[off] == (s + [0])[0];
    if |s| == 0 {
    } else {
      assert s[1..] + [0] == (s + [0])[1..];
      assert blob[off + 1..off + 1 + |s|] == (s + [0])[1..];
      CStringReads(blob, off + 1, s[1..]);
      assert s == [blob[off]] + s[1..];
    }
  }

  lemma FieldReads(blob: seq<byte>, off: int, v: nat, n: nat)
    requires Holds(blob, off, Pack(v, n)) && v < Pow256(n)
    ensures Field(blob, off, n) == Some(v)
  {
    UnpackPack(v, n);
  }

  lemma ThunkHere(blob: seq<byte>, base: int, off: int, thunk: nat, name: seq<byte>, rest: seq<Import>)
    requires Field(blob, off, 8) == Some(thunk) && 0 < thunk < 0x8000_0000_0000_0000
    requires CString(blob, thunk - base + 2) == Some(name) && Thunks(blob, base, off + 8) == Some(rest)
    ensures Thunks(blob, base, off) == Some([Import(name, base + off)] + rest)
  {
    hide CString;
  }

  lemma ThunksEnd(blob: seq<byte>, base: int, off: int)
    requires Field(blob, off, 8) == Some(0)
    ensures Thunks(blob, base, off) == Some([])
  { }

  lemma NameReads(blob: seq<byte>, off: int, name: seq<byte>)
    requires Holds(blob, off, Hint(name)) && 0 !in name
    ensures CString(blob, off + 2) == Some(name)
  {
    assert blob[off + 2..off + 3 + |name|] == Hint(name)[2..] == name + [0];
    CStringReads(blob, off + 2, name);
  }

  /** A table of either kind reads as the names, from its i-th entry on. */
  lemma {:induction false} ThunksRead(blob: seq<byte>, base: int, names: seq<seq<byte>>, table: nat, i: nat)
    requires i <= |names| && -DESC_SIZE <= base && base + HintOff(names, |names|) < 0x1_0000_0000
    requires forall j :: 0 <= j < |names| ==> 0 !in names[j]
    requires Hints(blob, names, |names|)
    requires forall j: nat :: j <= |names| ==> Holds(blob, table + 8 * j, Entry(base, names, |names|, j))
    ensures Thunks(blob, base, table + 8 * i) == Some(Slots(names, base + table)[i..])
    decreases |names| - i
  {
    hide Thunks, CString, Field, Hint, Pow256, Pack, HintOff, Holds, Slots;
    Powers();
    assert Holds(blob, table + 8 * i, Entry(base, names, |names|, i));
    if i == |names| {
      FieldReads(blob, table + 8 * i, 0, 8);
      ThunksEnd(blob, base, table + 8 * i);
    } else {
      HintsAscend(names, i, |names|);
      var thunk := base + HintOff(names, i);
      FieldReads(blob, table + 8 * i, thunk, 8);
      ThunksRead(blob, base, names, table, i + 1);
      NameReads(blob, thunk - base, names[i]);
      var slots := Slots(names, base + table);
      ThunkHere(blob, base, table + 8 * i, thunk, names[i], slots[i + 1..]);
      assert slots[i..] == [slots[i]] + slots[i + 1..];
    }
  }

  lemma OneLibrary(blob: seq<byte>, base: int, oft: nat, name: nat, ft: nat, l: Library)
    requires Field(blob, 0, 4) == Some(oft) && Field(blob, 12, 4) == Some(name) && Field(blob, 16, 4) == Some(ft)
    requires oft != 0 || name != 0
    requires Field(blob, 20, 4) == Field(blob, 32, 4) == Field(blob, 36, 4) == Some(0)
    requires CString(blob, name - base) == Some(l.dll)
    requires Thunks(blob, base, ft - base) == Some(l.imports) && Thunks(blob, base, oft - base) == Some(l.lookup)
    ensures Walk(blob, base, 0) == Some([l])
  {
    hide Thunks, CString, Field;
    assert Walk(blob, base, 20) == Some([]);
    assert [Library(l.dll, l.imports, l.lookup)] + [] == [l];
  }

  lemma DescriptorReads(blob: seq<byte>, base: int, names: seq<seq<byte>>)
    requires -DESC_SIZE <= base && base + HintOff(names, |names|) < 0x1_0000_0000
    requires Described(blob, base, names)
    ensures Field(blob, 0, 4) == Some(base + ILT_OFF) && Field(blob, 12, 4) == Some(base + HintOff(names, |names|))
    ensures Field(blob, 16, 4) == Some(base + IatOff(names))
    ensures Field(blob, 20, 4) == Field(blob, 32, 4) == Field(blob, 36, 4) == Some(0)
  {
    hide Field, Holds, Pow256, Pack, HintOff;
    Powers();
    FieldReads(blob, 0, base + ILT_OFF, 4);
    FieldReads(blob, 12, base + HintOff(names, |names|), 4);
    FieldReads(blob, 16, base + IatOff(names), 4);
    FieldReads(blob, 20, 0, 4);
    FieldReads(blob, 32, 0, 4);
    FieldReads(blob, 36, 0, 4);
  }

  /** A finished table walks as one library with the names given. */
  lemma WalkReads(blob: seq<byte>, base: int, names: seq<seq<byte>>, dll: seq<byte>)
    requires -DESC_SIZE <= base && base + HintOff(names, |names|) < 0x1_0000_0000
    requires 0 !in dll && forall j :: 0 <= j < |names| ==> 0 !in names[j]
    requires Described(blob, base, names) && Hints(blob, names, |names|) && Tables(blob, base, names, |names|)
    requires Holds(blob, HintOff(names, |names|), dll + [0])
    ensures Walk(blob, base, 0)
            == Some([Library(dll, Slots(names, base + IatOff(names)), Slots(names, base + ILT_OFF))])
  {
    hide Field, CString, Thunks, Holds, Walk, HintOff, Pack, Slots, Hint;
    DescriptorReads(blob, base, names);
    CStringReads(blob, HintOff(names, |names|), dll);
    ThunksRead(blob, base, names, IatOff(names), 0);
    ThunksRead(blob, base, names, ILT_OFF, 0);
    OneLibrary(blob, base, base + ILT_OFF, base + HintOff(names, |names|), base + IatOff(names),
               Library(dll, Slots(names, base + IatOff(names)), Slots(names, base + ILT_OFF)));
  }

  lemma ZerosHold(blob: seq<byte>, off: nat, n: nat)
    requires off + n <= |blob| && forall k :: off <= k < off + n ==> blob[k] == 0
    ensures Holds(blob, off, Pack(0, n))
    decreases n
  {
    if n > 0 {
      ZerosHold(blob, off + 1, n - 1);
      assert blob[off..off + n] == [blob[off]] + blob[off + 1..off + n];
    }
  }

  /** In a buffer of zeros every field of zeros is in place. */
  lemma BlankFilled(blob: seq<byte>, base: int, names: seq<seq<byte>>, dll: seq<byte>)
    requires -DESC_SIZE <= base && |blob| == Total(names, dll) && forall k :: 0 <= k < |blob| ==> blob[k] == 0
    ensures Tables(blob, base, names, 0)
    ensures Holds(blob, 20, Pack(0, 4)) && Holds(blob, 32, Pack(0, 4)) && Holds(blob, 36, Pack(0, 4))
  {
    hide Holds, Pack;
    ZerosHold(blob, 20, 4);
    ZerosHold(blob, 32, 4);
    ZerosHold(blob, 36, 4);
    forall j: nat | j <= |names|
      ensures Holds(blob, ILT_OFF + 8 * j, Pack(0, 8)) && Holds(blob, IatOff(names) + 8 * j, Pack(0, 8))
    {
      ZerosHold(blob, ILT_OFF + 8 * j, 8);
      ZerosHold(blob, IatOff(names) + 8 * j, 8);
    }
  }

  // Writing.

  lemma DescribedKept(blob: seq<byte>, at: nat, field: seq<byte>, base: int, names: seq<seq<byte>>)
    requires base + DESC_SIZE >= 0 && Described(blob, base, names)
    requires DESC_SIZE <= at && at + |field| <= |blob|
    ensures Described(Splice(blob, at, field), base, names)
  {
    hide Holds, Splice, Pack, HintOff;
    HoldsElsewhere(blob, at, field, 0, Pack(base + ILT_OFF, 4));
    HoldsElsewhere(blob, at, field, 12, Pack(base + HintOff(names, |names|), 4));
    HoldsElsewhere(blob, at, field, 16, Pack(base + IatOff(names), 4));
    HoldsElsewhere(blob, at, field, 20, Pack(0, 4));
    HoldsElsewhere(blob, at, field, 32, Pack(0, 4));
    HoldsElsewhere(blob, at, field, 36, Pack(0, 4));
  }

  lemma HintLength(name: seq<byte>)
    ensures |Hint(name)| == |name| + 3
  { }

  /** Writing the next hint. */
  lemma HintWritten(blob: seq<byte>, names: seq<seq<byte>>, i: nat)
    requires i < |names| && Hints(blob, names, i) && HintOff(names, i) + |names[i]| + 3 <= |blob|
    ensures Hints(Splice(blob, HintOff(names, i), Hint(names[i])), names, i + 1)
  {
    var at, field := HintOff(names, i), Hint(names[i]);
    hide Splice, Hint, HintOff;
    forall j: nat | j <= i ensures Holds(Splice(blob, at, field), HintOff(names, j), Hint(names[j])) {
      if j < i {
        HintsAscend(names, j, i);
        HintLength(names[j]);
        HoldsElsewhere(blob, at, field, HintOff(names, j), Hint(names[j]));
      }
    }
  }

  lemma HintStart(names: seq<seq<byte>>)
    ensures HintOff(names, 0) == IatOff(names) + (|names| + 1) * 8
  { }

  /** What is written behind the tables leaves them. */
  lemma TablesKept(blob: seq<byte>, base: int, names: seq<seq<byte>>, n: nat, at: nat, field: seq<byte>)
    requires base + DESC_SIZE >= 0 && n <= |names| && Tables(blob, base, names, n)
    requires (HintOff(names, 0) <= at && at + |field| <= |blob|) || (at == 0 && |field| <= ILT_OFF <= |blob|)
    ensures Tables(Splice(blob, at, field), base, names, n)
  {
    HintStart(names);
    hide Holds, Splice, Entry, HintOff;
    forall j: nat | j <= |names|
      ensures var b, e := Splice(blob, at, field), Entry(base, names, n, j);
              Holds(b, ILT_OFF + 8 * j, e) && Holds(b, IatOff(names) + 8 * j, e)
    {
      HoldsElsewhere(blob, at, field, ILT_OFF + 8 * j, Entry(base, names, n, j));
      HoldsElsewhere(blob, at, field, IatOff(names) + 8 * j, Entry(base, names, n, j));
    }
  }

  /** What is written before the hints leaves them. */
  lemma HintsKept(blob: seq<byte>, names: seq<seq<byte>>, n: nat, at: nat, field: seq<byte>)
    requires n <= |names| && Hints(blob, names, n) && at + |field| <= |blob|
    requires at + |field| <= HintOff(names, 0) || HintOff(names, n) <= at
    ensures Hints(Splice(blob, at, field), names, n)
  {
    hide Holds, Splice, Hint, HintOff;
    forall j: nat | j < n ensures Holds(Splice(blob, at, field), HintOff(names, j), Hint(names[j])) {
      if j > 0 { HintsAscend(names, 0, j); }
      HintsAscend(names, j, n);
      HintLength(names[j]);
      HoldsElsewhere(blob, at, field, HintOff(names, j), Hint(names[j]));
    }
  }

  lemma HoldsWritten(blob: seq<byte>, x: nat, y: nat, v: seq<byte>)
    requires x + |v| <= y && y + |v| <= |blob|
    ensures var c := Splice(Splice(blob, x, v), y, v); Holds(c, x, v) && Holds(c, y, v)
  {
    hide Splice;
    HoldsElsewhere(Splice(blob, x, v), y, v, x, v);
  }

  lemma EntryFits(blob: seq<byte>, base: int, names: seq<seq<byte>>, i: nat)
    requires base + DESC_SIZE >= 0 && i < |names| && Tables(blob, base, names, i)
    ensures IatOff(names) + 8 * i + 8 <= |blob|
  {
    hide Pack, HintOff;
    assert Holds(blob, IatOff(names) + 8 * i, Entry(base, names, i, i));
  }

  lemma HoldsBoth(blob: seq<byte>, x: nat, y: nat, v: seq<byte>, off: int, other: seq<byte>)
    requires x + |v| <= |blob| && y + |v| <= |blob| && Holds(blob, off, other)
    requires (off + |other| <= x || x + |v| <= off) && (off + |other| <= y || y + |v| <= off)
    ensures Holds(Splice(Splice(blob, x, v), y, v), off, other)
  {
    hide Splice, Holds;
    HoldsElsewhere(blob, x, v, off, other);
    HoldsElsewhere(Splice(blob, x, v), y, v, off, other);
  }

  lemma OtherEntry(blob: seq<byte>, base: int, names: seq<seq<byte>>, i: nat, j: nat)
    requires base + DESC_SIZE >= 0 && i < |names| && j <= |names| && j != i && Tables(blob, base, names, i)
    requires IatOff(names) + 8 * i + 8 <= |blob|
    ensures var v, e := Pack(base + HintOff(names, i), 8), Entry(base, names, i + 1, j);
            var c := Splice(Splice(blob, ILT_OFF + 8 * i, v), IatOff(names) + 8 * i, v);
            Holds(c, ILT_OFF + 8 * j, e) && Holds(c, IatOff(names) + 8 * j, e)
  {
    hide Splice, Pack, HintOff, Holds;
    var v, e := Pack(base + HintOff(names, i), 8), Entry(base, names, i, j);
    assert e == Entry(base, names, i + 1, j);
    HoldsBoth(blob, ILT_OFF + 8 * i, IatOff(names) + 8 * i, v, ILT_OFF + 8 * j, e);
    HoldsBoth(blob, ILT_OFF + 8 * i, IatOff(names) + 8 * i, v, IatOff(names) + 8 * j, e);
  }

  /** Writing the i-th entry of both tables. */
  lemma EntriesWritten(blob: seq<byte>, base: int, names: seq<seq<byte>>, i: nat)
    requires base + DESC_SIZE >= 0 && i < |names| && Tables(blob, base, names, i)
    ensures var v := Pack(base + HintOff(names, i), 8);
            IatOff(names) + 8 * i + 8 <= |blob| &&
            Tables(Splice(Splice(blob, ILT_OFF + 8 * i, v), IatOff(names) + 8 * i, v), base, names, i + 1)
  {
    hide Splice, Pack, HintOff, Holds;
    var v := Pack(base + HintOff(names, i), 8);
    EntryFits(blob, base, names, i);
    forall j: nat | j <= |names|
      ensures var e := Entry(base, names, i + 1, j);
              var c := Splice(Splice(blob, ILT_OFF + 8 * i, v), IatOff(names) + 8 * i, v);
              Holds(c, ILT_OFF + 8 * j, e) && Holds(c, IatOff(names) + 8 * j, e)
    {
      if j == i {
        HoldsWritten(blob, ILT_OFF + 8 * i, IatOff(names) + 8 * i, v);
      } else {
        OtherEntry(blob, base, names, i, j);
      }
    }
  }

  lemma HintNext(names: seq<seq<byte>>, i: nat)
    requires i < |names|
    ensures HintOff(names, i + 1) == HintOff(names, i) + |Hint(names[i])| && |Hint(names[i])| == |names[i]| + 3
    ensures HintOff(names, i + 1) <= HintOff(names, |names|)
  {
    HintsAscend(names, i, |names|);
  }

  lemma DescriptorWritten(blob: seq<byte>, base: int, names: seq<seq<byte>>, fields: seq<byte>)
    requires |blob| >= 40 && 0 <= base + DESC_SIZE
    requires Holds(blob, 20, Pack(0, 4)) && Holds(blob, 32, Pack(0, 4)) && Holds(blob, 36, Pack(0, 4))
    requires fields == Pack(base + ILT_OFF, 4) + Pack(0, 4) + Pack(0, 4) + Pack(base + HintOff(names, |names|), 4)
                       + Pack(base + IatOff(names), 4)
    ensures Described(Splice(blob, 0, fields), base, names)
  {
    hide Pack, HintOff;
    var b := Splice(blob, 0, fields);
    assert b[0..20] == fields;
    assert b[0..4] == fields[0..4] == Pack(base + ILT_OFF, 4);
    assert b[12..16] == fields[12..16] == Pack(base + HintOff(names, |names|), 4);
    assert b[16..20] == fields[16..20] == Pack(base + IatOff(names), 4);
    hide Splice;
    HoldsElsewhere(blob, 0, fields, 20, Pack(0, 4));
    HoldsElsewhere(blob, 0, fields, 32, Pack(0, 4));
    HoldsElsewhere(blob, 0, fields, 36, Pack(0, 4));
  }

  method WriteDescriptor(blob: array<byte>, names: seq<seq<byte>>, base: int, iatOff: nat, dllOff: nat)
    requires blob.Length >= HintOff(names, |names|) && iatOff == IatOff(names) && dllOff == HintOff(names, |names|)
    requires 0 <= base + DESC_SIZE && Tables(blob[..], base, names, 0)
    requires Holds(blob[..], 20, Pack(0, 4)) && Holds(blob[..], 32, Pack(0, 4)) && Holds(blob[..], 36, Pack(0, 4))
    modifies blob
    ensures Described(blob[..], base, names) && Tables(blob[..], base, names, 0)
  {
    hide HintOff, Pack;
    var fields := Pack(base + ILT_OFF, 4) + Pack(0, 4) + Pack(0, 4) + Pack(base + dllOff, 4) + Pack(base + iatOff, 4);
    Put(blob, 0, fields);
    DescriptorWritten(old(blob[..]), base, names, fields);
    TablesKept(old(blob[..]), base, names, 0, 0, fields);
  }

  /** What the buffer holds once n imports are written. */
  ghost predicate Written(blob: seq<byte>, base: int, names: seq<seq<byte>>, n: nat)
    requires n <= |names| && 0 <= base + DESC_SIZE
  {
    Described(blob, base, names) && Hints(blob, names, n) && Tables(blob, base, names, n)
  }

  lemma HintOrder(names: seq<seq<byte>>, i: nat)
    requires i < |names|
    ensures HintOff(names, 0) <= HintOff(names, i)
  {
    if i > 0 { HintsAscend(names, 0, i); }
  }

  /** The i-th name and its entries in both tables. */
  method WriteImport(blob: array<byte>, names: seq<seq<byte>>, base: int, i: nat, off: nat)
    requires 0 <= base + DESC_SIZE && i < |names| && off == HintOff(names, i)
    requires HintOff(names, i) + |names[i]| + 3 <= blob.Length
    requires Written(blob[..], base, names, i)
    modifies blob
    ensures Written(blob[..], base, names, i + 1)
  {
    hide Holds, Hints, Tables, Described, Splice, Pack, HintOff, Hint;
    HintNext(names, i);
    HintStart(names);
    HintOrder(names, i);
    ghost var b0 := blob[..];
    HintWritten(b0, names, i);
    DescribedKept(b0, off, Hint(names[i]), base, names);
    TablesKept(b0, base, names, i, off, Hint(names[i]));
    Put(blob, off, Hint(names[i]));
    ghost var b1 := blob[..];
    var entry := Pack(base + off, 8);
    EntriesWritten(b1, base, names, i);
    DescribedKept(b1, ILT_OFF + 8 * i, entry, base, names);
    HintsKept(b1, names, i + 1, ILT_OFF + 8 * i, entry);
    Put(blob, ILT_OFF + 8 * i, entry);
    ghost var b2 := blob[..];
    DescribedKept(b2, IatOff(names) + 8 * i, entry, base, names);
    HintsKept(b2, names, i + 1, IatOff(names) + 8 * i, entry);
    Put(blob, IatOff(names) + 8 * i, entry);
  }

  lemma NoHints(blob: seq<byte>, names: seq<seq<byte>>)
    ensures Hints(blob, names, 0)
  { }

  /** Appending the module's name. */
  lemma Finish(blob: seq<byte>, base: int, names: seq<seq<byte>>, at: nat, dll: seq<byte>)
    requires -DESC_SIZE <= base && base + at < 0x1_0000_0000 && at == HintOff(names, |names|)
             && |blob| == at + |dll| + 1
    requires Written(blob, base, names, |names|)
    ensures Written(Splice(blob, at, dll + [0]), base, names, |names|)
    ensures Holds(Splice(blob, at, dll + [0]), at, dll + [0])
    ensures 0 !in dll && (forall j :: 0 <= j < |names| ==> 0 !in names[j]) ==>
              Walk(Splice(blob, at, dll + [0]), base, 0)
              == Some([Library(dll, Slots(names, base + IatOff(names)), Slots(names, base + ILT_OFF))])
  {
    hide Walk, Hints, Tables, Described, Pack, HintOff, Hint, Slots;
    HintStart(names);
    if |names| > 0 { HintsAscend(names, 0, |names|); }
    DescribedKept(blob, at, dll + [0], base, names);
    TablesKept(blob, base, names, |names|, at, dll + [0]);
    HintsKept(blob, names, |names|, at, dll + [0]);
    if 0 !in dll && (forall j :: 0 <= j < |names| ==> 0 !in names[j]) {
      WalkReads(Splice(blob, at, dll + [0]), base, names, dll);
    }
  }

  /**
   The blob is refused exactly when an address in the descriptor does not fit 32 bits. Otherwise walking it
   yields the one library with exactly the names given, in order, from both of its tables.
   */
  method BuildIdata(names: seq<seq<byte>>, dll: seq<byte>, base: int) returns (r: Option<seq<byte>>)
    ensures r == None <==> base + DESC_SIZE < 0 || base + HintOff(names, |names|) >= 0x1_0000_0000
    ensures r.Some? ==> |r.value| == Total(names, dll)
    ensures r.Some? ==> Written(r.value, base, names, |names|) && Holds(r.value, HintOff(names, |names|), dll + [0])
    ensures r.Some? && 0 !in dll && (forall j :: 0 <= j < |names| ==> 0 !in names[j]) ==>
              Walk(r.value, base, 0)
              == Some([Library(dll, Slots(names, base + IatOff(names)), Slots(names, base + ILT_OFF))])
  {
    hide Walk, Holds, Hints, Tables, Described, Splice, Pack, HintOff, Hint;
    var n := |names|;
    var iltOff, iatOff, hintOff := ILT_OFF, IatOff(names), IatOff(names) + (n + 1) * 8;
    var cursor := hintOff;
    var i := 0;
    HintStart(names);
    while i < n
      invariant 0 <= i <= n && cursor == HintOff(names, i)
    {
      HintNext(names, i);
      cursor := cursor + |Hint(names[i])|;
      i := i + 1;
    }
    var dllOff := cursor;
    if base + iltOff < 0 || base + dllOff >= 0x1_0000_0000 { return None; }
    var blob := new byte[dllOff + |dll| + 1](_ => 0);
    BlankFilled(blob[..], base, names, dll);
    WriteDescriptor(blob, names, base, iatOff, dllOff);
    NoHints(blob[..], names);
    var off := hintOff;
    i := 0;
    while i < n
      invariant 0 <= i <= n && off == HintOff(names, i)
      invariant Written(blob[..], base, names, i)
    {
      HintNext(names, i);
      WriteImport(blob, names, base, i, off);
      off := off + |Hint(names[i])|;
      i := i + 1;
    }
    Finish(blob[..], base, names, dllOff, dll);
    Put(blob, dllOff, dll + [0]);
    r := Some(blob[..]);
  }

  // The section the shim has.

  function Ascii(s: string): seq<byte> { seq(|s|, i requires 0 <= i < |s| => s[i] as int % 0x100) }

  const DLL_NAME := "KERNEL32.dll"

  const FNS: seq<string> := [
    "SetErrorMode", "AddVectoredExceptionHandler", "VirtualQuery", "GetStdHandle", "InitializeCriticalSection",
    "EnterCriticalSection", "LeaveCriticalSection", "DeleteCriticalSection"]

  function Encoded(fns: seq<string>): seq<seq<byte>> { seq(|fns|, i requires 0 <= i < |fns| => Ascii(fns[i])) }

  predicate Printable(s: string) { forall i :: 0 <= i < |s| ==> 0 < s[i] as int < 0x80 }

  /** The bytes are the characters' codes, one by one. */
  predicate Spells(bs: seq<byte>, s: string) {
    |bs| == |s| && forall i :: 0 <= i < |s| ==> bs[i] as int == s[i] as int
  }

  lemma AsciiSpells(s: string)
    requires Printable(s)
    ensures Spells(Ascii(s), s) && forall bs :: Spells(bs, s) ==> bs == Ascii(s)
  { }

  lemma PrintableHasNoNul(s: string)
    requires Printable(s)
    ensures 0 !in Ascii(s)
  { }

  lemma FirstPrintable()
    ensures Printable("SetErrorMode") && Printable("AddVectoredExceptionHandler")
    ensures Printable("VirtualQuery") && Printable("GetStdHandle")
  { }

  lemma LastPrintable()
    ensures Printable("InitializeCriticalSection") && Printable("EnterCriticalSection")
    ensures Printable("LeaveCriticalSection") && Printable("DeleteCriticalSection")
  { }

  lemma AllPrintable()
    ensures Printable(DLL_NAME) && forall j :: 0 <= j < |FNS| ==> Printable(FNS[j])
  {
    assert Printable(FNS[0]) && Printable(FNS[1]) && Printable(FNS[2]) && Printable(FNS[3]) by { FirstPrintable(); }
    assert Printable(FNS[4]) && Printable(FNS[5]) && Printable(FNS[6]) && Printable(FNS[7]) by { LastPrintable(); }
    hide Printable;
  }

  /** The functions' initials tell them apart. */
  lemma FnsDiffer(i: nat, j: nat)
    requires i < |FNS| && j < |FNS| && i != j
    ensures Ascii(FNS[i]) != Ascii(FNS[j])
  {
    assert FNS[0][0] == 'S' && FNS[1][0] == 'A' && FNS[2][0] == 'V' && FNS[3][0] == 'G';
    assert FNS[4][0] == 'I' && FNS[5][0] == 'E' && FNS[6][0] == 'L' && FNS[7][0] == 'D';
    assert FNS[i][0] != FNS[j][0] && FNS[i][0] < '\U{80}' && FNS[j][0] < '\U{80}';
    assert Ascii(FNS[i])[0] == FNS[i][0] as int && Ascii(FNS[j])[0] == FNS[j][0] as int;
  }

  /** The section's bytes, and the addresses of the slots the shims call through, in the order they are given. */
  datatype ShimIdata = ShimIdata(
    blob: seq<byte>, addVectored: int, setErrorMode: int, virtualQuery: int, getStdHandle: int,
    initCs: int, enterCs: int, leaveCs: int, deleteCs: int)
  {
    /** Walking the section finds the function of that name bound to that slot, and to no other. */
    ghost predicate Binds(base: int, name: string, slot: int) {
      && Walk(blob, base, 0).Some? && |Walk(blob, base, 0).value| == 1
      && var l := Walk(blob, base, 0).value[0];
         && Spells(l.dll, "KERNEL32.dll") && |l.imports| == 8
         && (exists i :: i in l.imports && Spells(i.name, name) && i.slot == slot)
         && forall i :: i in l.imports && Spells(i.name, name) ==> i.slot == slot
    }

    ghost predicate AsDocumented(base: int) {
      && Binds(base, "AddVectoredExceptionHandler", addVectored)
      && Binds(base, "SetErrorMode", setErrorMode)
      && Binds(base, "VirtualQuery", virtualQuery)
      && Binds(base, "GetStdHandle", getStdHandle)
      && Binds(base, "InitializeCriticalSection", initCs)
      && Binds(base, "EnterCriticalSection", enterCs)
      && Binds(base, "LeaveCriticalSection", leaveCs)
      && Binds(base, "DeleteCriticalSection", deleteCs)
    }
  }

  /** The names are all that is needed of FNS to write the section. */
  function Names(): (names: seq<seq<byte>>)
    ensures names == Encoded(FNS) && |names| == 8 && forall j :: 0 <= j < 8 ==> 0 !in names[j]
  {
    AllPrintable();
    assert forall j :: 0 <= j < 8 ==> 0 !in Encoded(FNS)[j] by {
      forall j | 0 <= j < 8 ensures 0 !in Encoded(FNS)[j] { PrintableHasNoNul(FNS[j]); }
    }
    Encoded(FNS)
  }

  lemma FnBinds(s: ShimIdata, base: int, j: nat)
    requires j < |FNS|
    requires var names := Encoded(FNS);
             Walk(s.blob, base, 0) == Some([Library(Ascii(DLL_NAME), Slots(names, base + IatOff(names)),
                                                    Slots(names, base + ILT_OFF))])
    ensures s.Binds(base, FNS[j], base + IatOff(Encoded(FNS)) + 8 * j)
  {
    hide Walk, Spells;
    AllPrintable();
    AsciiSpells(DLL_NAME);
    AsciiSpells(FNS[j]);
    var names := Encoded(FNS);
    var slots := Slots(names, base + IatOff(names));
    assert slots[j] == Import(Ascii(FNS[j]), base + IatOff(names) + 8 * j);
    assert slots[j] in slots && Spells(slots[j].name, FNS[j]);
    forall i | i in slots && Spells(i.name, FNS[j]) ensures i.slot == base + IatOff(names) + 8 * j {
      var k: nat :| k < |slots| && slots[k] == i;
      if k != j { FnsDiffer(k, j); }
    }
  }

  lemma AllBind(s: ShimIdata, base: int)
    requires var names := Encoded(FNS);
             Walk(s.blob, base, 0) == Some([Library(Ascii(DLL_NAME), Slots(names, base + IatOff(names)),
                                                    Slots(names, base + ILT_OFF))])
    requires var iat := base + IatOff(Encoded(FNS));
             s == ShimIdata(s.blob, iat + 8, iat, iat + 16, iat + 24, iat + 32, iat + 40, iat + 48, iat + 56)
    ensures s.AsDocumented(base)
  {
    FnBinds(s, base, 0);
    FnBinds(s, base, 1);
    FnBinds(s, base, 2);
    FnBinds(s, base, 3);
    FnBinds(s, base, 4);
    FnBinds(s, base, 5);
    FnBinds(s, base, 6);
    FnBinds(s, base, 7);
    hide ShimIdata.Binds, Walk, Slots;
    assert FNS[0] == "SetErrorMode" && FNS[1] == "AddVectoredExceptionHandler" && FNS[2] == "VirtualQuery"
      && FNS[3] == "GetStdHandle" && FNS[4] == "InitializeCriticalSection" && FNS[5] == "EnterCriticalSection"
      && FNS[6] == "LeaveCriticalSection" && FNS[7] == "DeleteCriticalSection";
  }

  /** Where the parts of the section lie. */
  lemma Offsets()
    ensures var names := Encoded(FNS);
            IatOff(names) == 112 && HintOff(names, 8) == 357 && Total(names, Ascii(DLL_NAME)) == 370
  {
    var names := Encoded(FNS);
    assert |names[0]| == 12 && |names[1]| == 27 && |names[2]| == 12 && |names[3]| == 12;
    assert |names[4]| == 25 && |names[5]| == 20 && |names[6]| == 20 && |names[7]| == 21;
    hide Encoded;
    assert HintOff(names, 0) == 184;
    assert HintOff(names, 1) == 199 && HintOff(names, 2) == 229;
    assert HintOff(names, 3) == 244 && HintOff(names, 4) == 259;
    assert HintOff(names, 5) == 287 && HintOff(names, 6) == 310;
    assert HintOff(names, 7) == 333 && HintOff(names, 8) == 357;
  }

  /** Each address returned is the slot of its function. */
  method BuildShimIdata(base: int) returns (r: Option<ShimIdata>)
    ensures r == None <==> base + 40 < 0 || base + 357 >= 0x1_0000_0000
    ensures r.Some? ==> r.value.AsDocumented(base) && |r.value.blob| == 370
    ensures r.Some? ==>
              r.value == ShimIdata(r.value.blob, base + 120, base + 112, base + 128, base + 136, base + 144, base + 152,
                                   base + 160, base + 168)
  {
    hide Walk, HintOff, Slots, ShimIdata.Binds, Encoded;
    Offsets();
    var names := Names();
    assert 0 !in Ascii(DLL_NAME) by { AllPrintable(); PrintableHasNoNul(DLL_NAME); }
    var blob := BuildIdata(names, Ascii(DLL_NAME), base);
    if blob == None { return None; }
    var iat := base + IatOff(names);
    var s := ShimIdata(blob.value, iat + 8, iat, iat + 16, iat + 24, iat + 32, iat + 40, iat + 48, iat + 56);
    r := Some(s);
    AllBind(s, base);
  }
}
