/** The circular field iterator of pb_common.c. */
module PbIterator {
  import opened PbTypes
  import opened Prelude
  import opened PbDecode
  import opened PbMemory
  import opened PbVarint
  import opened PbRoundTrip

  /** The first member of the union of field i, or i itself. */
  function UnionHead(fields: seq<Field>, i: nat): (h: nat)
    requires i < |fields|
    ensures h <= i
  {
    if InSameUnion(fields, i) then UnionHead(fields, i - 1) else i
  }

  lemma {:induction false} FindInIsFirst(fields: seq<Field>, lo: nat, hi: nat, tag: nat, i: nat)
    requires lo <= i < hi <= |fields| && fields[i].tag == tag
    requires forall j :: lo <= j < i ==> fields[j].tag != tag
    ensures FindIn(fields, lo, hi, tag) == Some(i)
    decreases i - lo
  {
    if lo < i {
      FindInIsFirst(fields, lo + 1, hi, tag, i);
    }
  }

  /** The position after pos on the circle. */
  function NextPos(fields: seq<Field>, pos: nat): nat
  {
    if pos + 1 < |fields| then pos + 1 else 0
  }

  /** What a field puts between its own place and that of the next. */
  lemma {:induction false} NextPlace(fields: seq<Field>, i: nat)
    requires i + 1 < |fields|
    ensures DataOffset(fields, i + 1) ==
            DataOffset(fields, i) + if InSameUnion(fields, i + 1) then 0 else FieldBytes(fields[i]) + fields[i + 1].dataOffset
    ensures UnionHead(fields, i + 1) == if InSameUnion(fields, i + 1) then UnionHead(fields, i) else i + 1
    ensures RequiredBefore(fields, i + 1) == RequiredBefore(fields, i) + if fields[i].htype.Required? then 1 else 0
  {
    hide FieldBytes, InSameUnion;
  }

  class FieldIter {
    const start: seq<Field>
    const destStruct: nat
    var pos: nat                  // |start| stands for the terminator
    var pData: nat
    var pSize: int
    var requiredFieldIndex: nat

    /** The pointers are those of the field at pos. In an empty descriptor the iterator stays on
        the terminator. */
    ghost predicate Valid()
      reads this
    {
      if start == [] then pos == 0 && requiredFieldIndex == 0
      else
        pos < |start| &&
        pData == destStruct + DataOffset(start, pos) &&
        pSize == pData + start[UnionHead(start, pos)].sizeOffset &&
        requiredFieldIndex == RequiredBefore(start, pos)
    }

    /** pb_field_iter_begin */
    constructor (fields: seq<Field>, destStruct: nat)
      ensures start == fields && this.destStruct == destStruct
      ensures Valid() && pos == 0
    {
      start := fields;
      this.destStruct := destStruct;
      pos := 0;
      requiredFieldIndex := 0;
      var offset := if fields == [] then 0 else fields[0].dataOffset;
      pData := destStruct + offset;
      pSize := destStruct + offset + if fields == [] then 0 else fields[0].sizeOffset;
    }

    method Rewind()
      requires start != []
      modifies this
      ensures Valid() && pos == 0
    {
      assert DataOffset(start, 0) == start[0].dataOffset && UnionHead(start, 0) == 0 && RequiredBefore(start, 0) == 0;
      pos := 0;
      requiredFieldIndex := 0;
      pData := destStruct + start[0].dataOffset;
      pSize := pData + start[0].sizeOffset;
    }

    /** pb_field_iter_next: one field further, or false on the way back to the first. */
    method Next() returns (more: bool)
      requires Valid()
      modifies this
      ensures Valid()
      ensures more <==> old(pos) + 1 < |start|
      ensures pos == NextPos(start, old(pos))
    {
      hide DataOffset, UnionHead, RequiredBefore;
      if pos == |start| {
        return false;
      }
      if pos + 1 < |start| {
        NextPlace(start, pos);
      }
      var prev := start[pos];
      pos := pos + 1;
      if pos == |start| {
        Rewind();
        return false;
      }
      var prevSize := prev.dataSize;
      if prev.htype.Oneof? && start[pos].htype.Oneof? && start[pos].dataOffset == PB_SIZE_MAX {
        return true;
      } else if prev.htype.Repeated? {
        prevSize := prevSize * prev.arraySize;
      }
      if prev.htype.Required? {
        requiredFieldIndex := requiredFieldIndex + 1;
      }
      pData := pData + prevSize + start[pos].dataOffset;
      pSize := pData + start[pos].sizeOffset;
      return true;
    }

    /** pb_field_iter_find: the search goes once around the circle and, when it fails, ends where
        it began. On an empty descriptor it compares the tag with the terminator's. */
    method Find(tag: nat) returns (found: bool)
      requires Valid()
      modifies this
      ensures Valid()
      ensures start == [] ==> (found <==> tag == 0)
      ensures start != [] ==> (found <==> FindFrom(start, old(pos), tag).Some?)
      ensures start != [] && found ==> Some(pos) == FindFrom(start, old(pos), tag)
      ensures !found ==> pos == old(pos)
    {
      var begin := pos;
      var wrapped := false;
      while true
        invariant Valid() && (start == [] ==> pos == begin && !wrapped)
        invariant start != [] && !wrapped ==> begin <= pos && forall j :: begin <= j < pos ==> start[j].tag != tag
        invariant start != [] && wrapped ==> pos < begin && forall j :: begin <= j < |start| ==> start[j].tag != tag
        invariant start != [] && wrapped ==> forall j :: 0 <= j < pos ==> start[j].tag != tag
        decreases !wrapped, |start| - pos
      {
        if start == [] {
          found := tag == 0;
          var _ := Next();
          return;
        }
        if start[pos].tag == tag {
          FindInIsFirst(start, if wrapped then 0 else begin, if wrapped then begin else |start|, tag, pos);
          return true;
        }
        var more := Next();
        wrapped := wrapped || !more;
        if pos == begin {
          return false;
        }
      }
    }
  }

  /** Where k calls of pb_field_iter_next lead. */
  function Steps(fields: seq<Field>, p: nat, k: nat): nat
  {
    if k == 0 then p else NextPos(fields, Steps(fields, p, k - 1))
  }

  lemma {:induction false} StepsAt(fields: seq<Field>, p: nat, k: nat)
    requires p < |fields| && k <= |fields|
    ensures Steps(fields, p, k) == if p + k < |fields| then p + k else p + k - |fields|
  {
    if k > 0 {
      StepsAt(fields, p, k - 1);
    }
  }

  /** From any position, |fields| steps visit every field exactly once and come back. */
  lemma {:induction false} FullCycle(fields: seq<Field>, p: nat, i: nat)
    requires p < |fields| && i < |fields|
    ensures Steps(fields, p, |fields|) == p
    ensures exists k :: 0 <= k < |fields| && Steps(fields, p, k) == i
    ensures forall k, m :: 0 <= k < m < |fields| ==> Steps(fields, p, k) != Steps(fields, p, m)
  {
    StepsAt(fields, p, |fields|);
    StepsAt(fields, p, if i >= p then i - p else i + |fields| - p);
    forall k, m | 0 <= k < m < |fields| ensures Steps(fields, p, k) != Steps(fields, p, m) {
      StepsAt(fields, p, k);
      StepsAt(fields, p, m);
    }
  }

  // ----- the required-field check

  /** The fields whose keys the loop meets in b. */
  function Arrived(fields: seq<Field>, ls: LoopState, b: seq<byte>): set<nat>
    requires LoopOk(fields, ls)
    decreases |b|
  {
    if b == [] then {}
    else match Step(fields, ls, b)
      case StepOk(ls', rest) =>
        (match FindFrom(fields, ls.pos, DecTag(b).tag) case Some(i) => {i} case None => {}) + Arrived(fields, ls', rest)
      case _ => {}
  }

  predicate Counted(fields: seq<Field>, i: nat)
  {
    i < |fields| && fields[i].htype.Required? && RequiredBefore(fields, i) < PB_MAX_REQUIRED_FIELDS
  }

  lemma {:induction false} StepSeen(fields: seq<Field>, ls: LoopState, b: seq<byte>)
    requires LoopOk(fields, ls) && b != [] && Step(fields, ls, b).StepOk?
    ensures DecTag(b).Key?
    ensures var found := FindFrom(fields, ls.pos, DecTag(b).tag);
            Step(fields, ls, b).ls.seen ==
            ls.seen + if found.Some? && Counted(fields, found.value) then {RequiredBefore(fields, found.value)} else {}
  {
    hide FindFrom, Skip, Dec32, RequiredBefore, DecField;
    var t := DecTag(b);
    assert Step(fields, ls, b) == StepKey(fields, ls, t.tag, t.wt, t.rest);
  }

  /** The seen set holds exactly the indices of the required fields that arrived. */
  lemma {:induction false} SeenIsArrived(fields: seq<Field>, ls: LoopState, b: seq<byte>, k: nat)
    requires LoopOk(fields, ls) && Loop(fields, ls, b).LoopEnd?
    ensures k in Loop(fields, ls, b).ls.seen <==>
            k in ls.seen || exists i :: i in Arrived(fields, ls, b) && Counted(fields, i) && RequiredBefore(fields, i) == k
    decreases |b|
  {
    hide Step, FindFrom, RequiredBefore, Counted;
    if b != [] && Step(fields, ls, b).StepOk? {
      StepSeen(fields, ls, b);
      SeenIsArrived(fields, Step(fields, ls, b).ls, Step(fields, ls, b).rest, k);
    }
  }

  /** When every field and fixed count decodes, pb_decode_noinit accepts exactly if each of the
      first 64 required fields appeared. */
  lemma {:induction false} RequiredExact(fields: seq<Field>, st: Msg, b: seq<byte>)
    requires Loop(fields, Start(st), b).LoopEnd? && FixedComplete(fields, Loop(fields, Start(st), b).ls)
    ensures DecMsg(fields, st, b).Good? <==>
            forall i :: Counted(fields, i) ==> i in Arrived(fields, Start(st), b)
  {
    hide Loop, FixedComplete, Arrived;
    var ls := Loop(fields, Start(st), b).ls;
    if forall i :: Counted(fields, i) ==> i in Arrived(fields, Start(st), b) {
      forall k | 0 <= k < Min(RequiredBefore(fields, |fields|), PB_MAX_REQUIRED_FIELDS) ensures k in ls.seen {
        var i := RequiredAt(fields, |fields|, k);
        assert Counted(fields, i);
        SeenIsArrived(fields, Start(st), b, k);
      }
    }
    if DecMsg(fields, st, b).Good? {
      forall i | Counted(fields, i) ensures i in Arrived(fields, Start(st), b) {
        RequiredBeforeMonotone(fields, i, |fields|);
        var k := RequiredBefore(fields, i);
        SeenIsArrived(fields, Start(st), b, k);
        var j :| j in Arrived(fields, Start(st), b) && Counted(fields, j) && RequiredBefore(fields, j) == k;
        if i < j {
          RequiredBeforeMonotone(fields, i, j);
        } else if j < i {
          RequiredBeforeMonotone(fields, j, i);
        }
      }
    }
  }
}
