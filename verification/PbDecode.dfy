/** pb_decode as a function of the bytes left in the stream and of the destination struct.

    The mutable streams and the iterator that compute it are in PbInput and PbIterator. A
    failed decode yields `Bad`; what it leaves in the struct is not part of the function. */
module PbDecode {
  import opened Bits
  import opened PbTypes
  import opened PbMemory
  import opened Prelude
  import opened PbVarint
  import opened PbEncode

  // ----- keys and unknown fields

  datatype TagRes =
    | TagBad
    | TagEof(rest: seq<byte>)               // a zero key ends the message
    | Key(tag: nat, wt: nat, rest: seq<byte>)

  /** pb_decode_tag on a stream that has bytes left. */
  function DecTag(b: seq<byte>): (t: TagRes)
    ensures t.TagEof? ==> |t.rest| < |b|
    ensures t.Key? ==> |t.rest| < |b|
  {
    match Dec32(b)
    case Bad => TagBad
    case Good(k, rest) => if k == 0 then TagEof(rest) else Key(k / 8, k % 8, rest)
  }

  /** pb_make_string_substream: a length and that many bytes. */
  function SubString(b: seq<byte>): (d: Dec<seq<byte>>)
    ensures d.Good? ==> |d.v| + |d.rest| < |b|
  {
    match Dec32(b)
    case Bad => Bad
    case Good(n, rest) => if |rest| < n then Bad else Good(rest[..n], rest[n..])
  }

  /** pb_skip_field. */
  function Skip(wt: nat, b: seq<byte>): (d: Dec<()>)
    ensures d.Good? ==> |d.rest| <= |b|
  {
    if wt == WT_VARINT then
      match VarintLen(b)
      case None => Bad
      case Some(n) => Good((), b[n..])
    else if wt == WT_64BIT then (if |b| < 8 then Bad else Good((), b[8..]))
    else if wt == WT_STRING then
      match SubString(b)
      case Bad => Bad
      case Good(_, rest) => Good((), rest)
    else if wt == WT_32BIT then (if |b| < 4 then Bad else Good((), b[4..]))
    else Bad
  }

  // ----- defaults

  /** The value in zeroed memory. */
  function ZeroVal(f: Field): Val
    decreases f, 0
  {
    match f.ltype
    case Submsg(fields) => MsgVal(ZeroSlots(fields, SlotCount(fields)))
    case Bytes => BytesVal(0, Zeros(if f.dataSize < PB_SIZE_BYTES then 0 else f.dataSize - PB_SIZE_BYTES))
    case Str => StrVal(Zeros(f.dataSize))
    case FixedBytes => RawVal(Zeros(f.dataSize))
    case _ => IntVal(0)
  }

  function Zeros(n: nat): (z: seq<byte>)
    ensures |z| == n
    ensures forall j :: 0 <= j < n ==> z[j] == 0
  {
    seq(n, _ => 0)
  }

  function Repeat<T>(x: T, n: nat): (s: seq<T>)
    ensures |s| == n
    ensures forall j :: 0 <= j < n ==> s[j] == x
  {
    seq(n, _ => x)
  }

  function ZeroSlot(f: Field): Slot
    decreases f, 1
  {
    match f.htype
    case Required => Plain(ZeroVal(f))
    case Optional => if IsSingular(f) then Plain(ZeroVal(f)) else Opt(false, ZeroVal(f))
    case Repeated =>
      if IsFixedCount(f) then FixedRep(Repeat(ZeroVal(f), f.arraySize)) else Rep(0, Repeat(ZeroVal(f), f.arraySize))
    case Oneof => Union(0, ZeroVal(f))
  }

  /** The first n slots of a zeroed struct; a union shows the zero value of its first member. */
  function ZeroSlots(fields: seq<Field>, n: nat): (st: Msg)
    ensures |st| == n
    decreases fields, 0, n
  {
    if n == 0 then []
    else
      ZeroSlots(fields, n - 1) +
      [match FirstWithSlot(fields, n - 1, 0)
       case None => Plain(IntVal(0))
       case Some(i) => ZeroSlot(fields[i])]
  }

  function FirstWithSlot(fields: seq<Field>, s: nat, i: nat): (r: Option<nat>)
    requires i <= |fields|
    ensures r.Some? ==> r.value < |fields| && SlotOf(fields, r.value) == s
    decreases |fields| - i
  {
    if i == |fields| then None else if SlotOf(fields, i) == s then Some(i) else FirstWithSlot(fields, s, i + 1)
  }

  /** pb_field_set_to_default on a value: a submessage recursively, otherwise the default or zero. */
  function DefaultVal(f: Field, old_: Val): Val
    decreases f, 0
  {
    match f.ltype
    case Submsg(fields) => if old_.MsgVal? then MsgVal(SetDefaults(fields, old_.slots)) else old_
    case _ => if f.dflt.Some? then f.dflt.value else ZeroVal(f)
  }

  /** pb_field_set_to_default. Arrays keep their elements and unions their data, except that
      "count := 0" of a fixed-count array lands on its first elements. */
  function DefaultSlot(f: Field, s: Slot): Slot
    decreases f, 1
  {
    match s
    case Plain(v) => if f.htype.Required? || f.htype.Optional? then Plain(DefaultVal(f, v)) else s
    case Opt(_, v) => if f.htype.Optional? then Opt(false, DefaultVal(f, v)) else s
    case Rep(_, items) => Rep(0, items)
    case FixedRep(items) => FixedRep(ClearItems(f, items, 0, PB_SIZE_BYTES))
    case Union(_, v) => Union(0, v)
  }

  /** pb_message_set_to_defaults. */
  function SetDefaults(fields: seq<Field>, st: Msg): (r: Msg)
    ensures |r| == |st|
    decreases fields, 1
  {
    DefaultsFrom(fields, st, 0)
  }

  function DefaultsFrom(fields: seq<Field>, st: Msg, i: nat): (r: Msg)
    requires i <= |fields|
    ensures |r| == |st|
    decreases fields, 0, |fields| - i
  {
    if i == |fields| then st
    else
      var s := SlotOf(fields, i);
      var st' := if s < |st| then st[s := DefaultSlot(fields[i], st[s])] else st;
      DefaultsFrom(fields, st', i + 1)
  }

  // ----- one value

  /** Overwrite the start of a buffer. */
  function Overwrite(data: seq<byte>, buf: seq<byte>): (r: seq<byte>)
    requires |data| <= |buf|
    ensures |r| == |buf|
  {
    data + buf[|data|..]
  }

  /** The signed value the low bits of x give a field of this size. */
  function Narrow(x: int, size: nat): int
  {
    ToSigned(x, 8 * size)
  }

  /** The PB_DECODERS entry of f, other than pb_dec_submessage. */
  function DecLeaf(f: Field, old_: Val, b: seq<byte>): (d: Dec<Val>)
    ensures d.Good? ==> |d.rest| < |b|
  {
    match f.ltype
    case Varint =>
      (match DecVarint(b)
       case Bad => Bad
       case Good(u, rest) =>
         var svalue := if f.dataSize == 8 then ToSigned(u, 64) else ToSigned(u, 32);
         if !IsIntSize(f.dataSize) || Narrow(svalue, f.dataSize) != svalue then Bad else Good(IntVal(svalue), rest))
    case UVarint =>
      (match DecVarint(b)
       case Bad => Bad
       case Good(u, rest) =>
         if !IsIntSize(f.dataSize) || u % Pow2(8 * f.dataSize) != u then Bad else Good(IntVal(u), rest))
    case SVarint =>
      (match DecVarint(b)
       case Bad => Bad
       case Good(u, rest) =>
         var svalue := UnZigZag(u);
         if !IsIntSize(f.dataSize) || Narrow(svalue, f.dataSize) != svalue then Bad else Good(IntVal(svalue), rest))
    case Fixed32 => if |b| < 4 then Bad else Good(IntVal(FromLe32(b[..4])), b[4..])
    case Fixed64 => if |b| < 8 then Bad else Good(IntVal(FromLe64(b[..8])), b[8..])
    case Bytes =>
      (match SubString(b)
       case Bad => Bad
       case Good(data, rest) =>
         if |data| + PB_SIZE_BYTES > f.dataSize || !old_.BytesVal? || |data| > |old_.buf| then Bad
         else Good(BytesVal(|data|, Overwrite(data, old_.buf)), rest))
    case Str =>
      (match SubString(b)
       case Bad => Bad
       case Good(data, rest) =>
         // size + 1 is computed in 32 bits
         if |data| == PB_SIZE_MAX || |data| + 1 > f.dataSize || !old_.StrVal? || |data| + 1 > |old_.text| then Bad
         else Good(StrVal(Overwrite(data + [0], old_.text)), rest))
    case FixedBytes =>
      (match SubString(b)
       case Bad => Bad
       case Good(data, rest) =>
         if |data| == 0 then Good(RawVal(Zeros(f.dataSize)), rest)
         else if |data| != f.dataSize then Bad
         else Good(RawVal(data), rest))
    case Submsg(_) => Bad
  }

  /** The PB_DECODERS entry of f. */
  function DecVal(f: Field, old_: Val, b: seq<byte>): (d: Dec<Val>)
    ensures d.Good? ==> |d.rest| < |b|
    decreases |b|, 0
  {
    match f.ltype
    case Submsg(fields) =>
      (match SubString(b)
       case Bad => Bad
       case Good(body, rest) =>
         if !old_.MsgVal? then Bad
         else
           // new array elements are initialised, other submessages already are
           var st := if f.htype.Repeated? then SetDefaults(fields, old_.slots) else old_.slots;
           match DecMsg(fields, st, body)
           case Bad => Bad
           case Good(st', _) => Good(MsgVal(st'), rest))
    case _ => DecLeaf(f, old_, b)
  }

  // ----- one field

  datatype Array = Array(count: nat, items: seq<Val>)

  /** The elements of a packed array, from its substream. */
  function DecPacked(f: Field, a: Array, body: seq<byte>): Option<Array>
    decreases |body|
  {
    if body == [] then Some(a)
    else if a.count >= f.arraySize || a.count >= |a.items| then None
    else match DecLeaf(f, a.items[a.count], body)
      case Bad => None
      case Good(v, rest) => DecPacked(f, Array(a.count + 1, a.items[a.count := v]), rest)
  }

  /** The PB_HTYPE_REPEATED case of decode_static_field. */
  function DecArray(f: Field, a: Array, wt: nat, b: seq<byte>): (d: Dec<Array>)
    ensures d.Good? ==> |d.rest| < |b|
    decreases |b|, 1
  {
    if wt == WT_STRING && Packable(f.ltype) then
      match SubString(b)
      case Bad => Bad
      case Good(body, rest) =>
        match DecPacked(f, a, body)
        case None => Bad
        case Some(a') => Good(a', rest)
    else if a.count >= f.arraySize || a.count >= |a.items| then Bad
    else match DecVal(f, a.items[a.count], b)
      case Bad => Bad
      case Good(v, rest) => Good(Array(a.count + 1, a.items[a.count := v]), rest)
  }

  /** What a union member starts from when its tag arrives. */
  function UnionInit(f: Field, which: nat, v: Val): Val
  {
    match f.ltype
    case Submsg(fields) => DefaultVal(f, ZeroVal(f))
    case _ => if which == f.tag then v else ZeroVal(f)
  }

  datatype SlotSize = SlotSize(slot: Slot, fixedSize: nat)

  /** decode_static_field. `fixedSize` is the running count of a fixed-count array. */
  function DecField(f: Field, s: Slot, fixedSize: nat, wt: nat, b: seq<byte>): (d: Dec<SlotSize>)
    ensures d.Good? ==> |d.rest| < |b|
    decreases |b|, 2
  {
    match f.htype
    case Required =>
      if !s.Plain? then Bad
      else (match DecVal(f, s.v, b) case Bad => Bad case Good(v, rest) => Good(SlotSize(Plain(v), fixedSize), rest))
    case Optional =>
      if IsSingular(f) then
        if !s.Plain? then Bad
        else (match DecVal(f, s.v, b) case Bad => Bad case Good(v, rest) => Good(SlotSize(Plain(v), fixedSize), rest))
      else if !s.Opt? then Bad
      else (match DecVal(f, s.v, b) case Bad => Bad case Good(v, rest) => Good(SlotSize(Opt(true, v), fixedSize), rest))
    case Repeated =>
      if IsFixedCount(f) then
        if !s.FixedRep? then Bad
        else (match DecArray(f, Array(fixedSize, s.items), wt, b)
              case Bad => Bad
              case Good(a, rest) => Good(SlotSize(FixedRep(a.items), a.count), rest))
      else if !s.Rep? then Bad
      else (match DecArray(f, Array(s.count, s.items), wt, b)
            case Bad => Bad
            case Good(a, rest) => Good(SlotSize(Rep(a.count, a.items), fixedSize), rest))
    case Oneof =>
      if !s.Union? then Bad
      else (match DecVal(f, UnionInit(f, s.which, s.v), b)
            case Bad => Bad
            case Good(v, rest) => Good(SlotSize(Union(f.tag, v), fixedSize), rest))
  }

  // ----- the field loop

  /** The first field in lo..hi with this tag. */
  function FindIn(fields: seq<Field>, lo: nat, hi: nat, tag: nat): (r: Option<nat>)
    requires lo <= hi <= |fields|
    ensures r.Some? ==> lo <= r.value < hi && fields[r.value].tag == tag
    ensures r.None? ==> forall i :: lo <= i < hi ==> fields[i].tag != tag
    decreases hi - lo
  {
    if lo == hi then None else if fields[lo].tag == tag then Some(lo) else FindIn(fields, lo + 1, hi, tag)
  }

  /** pb_field_iter_find: around the circle from the current position. */
  function FindFrom(fields: seq<Field>, pos: nat, tag: nat): (r: Option<nat>)
    requires pos <= |fields|
    ensures r.Some? ==> r.value < |fields| && fields[r.value].tag == tag
    ensures r.None? ==> forall i :: 0 <= i < |fields| ==> fields[i].tag != tag
  {
    match FindIn(fields, pos, |fields|, tag)
    case Some(i) => Some(i)
    case None => FindIn(fields, 0, pos, tag)
  }

  /** The variables of pb_decode_noinit that live across the loop, with the struct. */
  datatype LoopState = LS(st: Msg, pos: nat, seen: set<nat>, fixed: Option<nat>, fixedSize: nat)

  function Start(st: Msg): LoopState
  {
    LS(st, 0, {}, None, 0)
  }

  predicate LoopOk(fields: seq<Field>, ls: LoopState)
  {
    (fields == [] ==> ls.pos == 0) && (fields != [] ==> ls.pos < |fields|) &&
    (ls.fixed.Some? ==> ls.fixed.value < |fields| && IsFixedCount(fields[ls.fixed.value]))
  }

  /** Every element of the last fixed-count array has arrived. */
  predicate FixedComplete(fields: seq<Field>, ls: LoopState)
    requires LoopOk(fields, ls)
  {
    ls.fixed.Some? ==> ls.fixedSize == fields[ls.fixed.value].arraySize
  }

  /** The loop variables when field i has been found. */
  function Found(fields: seq<Field>, ls: LoopState, i: nat): (r: Option<LoopState>)
    requires LoopOk(fields, ls) && i < |fields|
    ensures r.Some? ==> LoopOk(fields, r.value) && r.value.st == ls.st
  {
    var f := fields[i];
    if IsFixedCount(f) then
      if ls.fixed == Some(i) then Some(ls.(pos := i))
      else if !FixedComplete(fields, ls) then None
      else Some(ls.(pos := i, fixed := Some(i), fixedSize := 0))
    else if f.htype.Required? && RequiredBefore(fields, i) < PB_MAX_REQUIRED_FIELDS then
      Some(ls.(pos := i, seen := ls.seen + {RequiredBefore(fields, i)}))
    else Some(ls.(pos := i))
  }

  datatype StepRes =
    | StepBad
    | StepEof(rest: seq<byte>)
    | StepOk(ls: LoopState, rest: seq<byte>)

  /** One iteration of the loop of pb_decode_noinit. */
  function Step(fields: seq<Field>, ls: LoopState, b: seq<byte>): (r: StepRes)
    requires LoopOk(fields, ls) && b != []
    ensures r.StepOk? ==> |r.rest| < |b| && LoopOk(fields, r.ls)
    ensures r.StepEof? ==> |r.rest| < |b|
    decreases |b|, 3
  {
    match DecTag(b)
    case TagBad => StepBad
    case TagEof(rest) => StepEof(rest)
    case Key(tag, wt, rest) => StepKey(fields, ls, tag, wt, rest)
  }

  /** The loop body after its key. Tag 0 finds the terminator of an empty descriptor, whose
      zero data size no decoder accepts. */
  function StepKey(fields: seq<Field>, ls: LoopState, tag: nat, wt: nat, b: seq<byte>): (r: StepRes)
    requires LoopOk(fields, ls)
    ensures r.StepOk? ==> |r.rest| <= |b| && LoopOk(fields, r.ls)
    ensures !r.StepEof?
    decreases |b|, 4
  {
    if fields == [] && tag == 0 then StepBad
    else match FindFrom(fields, ls.pos, tag)
      case None => (match Skip(wt, b) case Bad => StepBad case Good(_, rest) => StepOk(ls, rest))
      case Some(i) => StepField(fields, ls, i, wt, b)
  }

  function StepField(fields: seq<Field>, ls: LoopState, i: nat, wt: nat, b: seq<byte>): (r: StepRes)
    requires LoopOk(fields, ls) && i < |fields|
    ensures r.StepOk? ==> |r.rest| < |b| && LoopOk(fields, r.ls)
    ensures !r.StepEof?
    decreases |b|, 3
  {
    var s := SlotOf(fields, i);
    match Found(fields, ls, i)
    case None => StepBad
    case Some(ls1) =>
      if s >= |ls.st| then StepBad
      else match DecField(fields[i], ls.st[s], ls1.fixedSize, wt, b)
        case Bad => StepBad
        case Good(r, rest) => StepOk(ls1.(st := ls.st[s := r.slot], fixedSize := r.fixedSize), rest)
  }

  datatype LoopRes = LoopBad | LoopEnd(ls: LoopState, rest: seq<byte>, zeroKey: bool)

  /** The loop of pb_decode_noinit: to the end of the stream, or to a zero key. */
  function Loop(fields: seq<Field>, ls: LoopState, b: seq<byte>): (r: LoopRes)
    requires LoopOk(fields, ls)
    ensures r.LoopEnd? ==> LoopOk(fields, r.ls) && |r.rest| <= |b|
    decreases |b|, 5
  {
    if b == [] then LoopEnd(ls, b, false)
    else match Step(fields, ls, b)
      case StepBad => LoopBad
      case StepEof(rest) => LoopEnd(ls, rest, true)
      case StepOk(ls', rest) => Loop(fields, ls', rest)
  }

  function Min(a: nat, b: nat): nat
  {
    if a < b then a else b
  }

  /** The first 64 required fields all appeared. */
  predicate RequiredSeen(fields: seq<Field>, seen: set<nat>)
  {
    forall k :: 0 <= k < Min(RequiredBefore(fields, |fields|), PB_MAX_REQUIRED_FIELDS) ==> k in seen
  }

  predicate Accepts(fields: seq<Field>, ls: LoopState)
    requires LoopOk(fields, ls)
  {
    FixedComplete(fields, ls) && RequiredSeen(fields, ls.seen)
  }

  /** pb_decode_noinit. */
  function DecMsg(fields: seq<Field>, st: Msg, b: seq<byte>): (d: Dec<Msg>)
    ensures d.Good? ==> |d.rest| <= |b|
    decreases |b|, 6
  {
    match Loop(fields, Start(st), b)
    case LoopBad => Bad
    case LoopEnd(ls, rest, _) => if Accepts(fields, ls) then Good(ls.st, rest) else Bad
  }

  /** pb_decode. */
  function Decode(fields: seq<Field>, st: Msg, b: seq<byte>): Dec<Msg>
  {
    DecMsg(fields, SetDefaults(fields, st), b)
  }
}
