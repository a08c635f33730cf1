/** Input streams, and pb_decode on them.

    A stream reads a shared buffer through `state` and `bytesLeft`; a substream starts where its
    parent stands, and the parent is moved behind it when it is closed. Every method is proved
    against the functions of PbDecode: it succeeds exactly when they do, with their value, and
    leaves exactly the bytes they leave. */
module PbInput {
  import opened Bits
  import opened PbTypes
  import opened Prelude
  import opened PbVarint
  import opened PbEncode
  import opened PbDecode
  import opened PbWellFormed
  import opened PbIterator
  import opened PbLayout

  class IStream {
    const source: seq<byte>
    var state: nat               // index of the next byte
    var bytesLeft: nat

    ghost predicate Valid()
      reads this
    {
      state + bytesLeft <= |source|
    }

    /** The bytes still to be read. */
    ghost function Rem(): (r: seq<byte>)
      requires Valid()
      reads this
      ensures |r| == bytesLeft
    {
      source[state..state + bytesLeft]
    }

    ghost function End(): nat
      reads this
    {
      state + bytesLeft
    }

    /** pb_istream_from_buffer, and the substream of pb_make_string_substream. */
    constructor (source: seq<byte>, state: nat, size: nat)
      requires state + size <= |source|
      ensures Valid() && this.source == source && this.state == state && bytesLeft == size
    {
      this.source, this.state, bytesLeft := source, state, size;
    }

    /** pb_readbyte */
    method ReadByte() returns (ok: bool, x: byte)
      requires Valid()
      modifies this
      ensures Valid() && End() == old(End()) && (ok <==> old(Rem()) != [])
      ensures if ok then x == old(Rem())[0] && Rem() == old(Rem())[1..] else Rem() == old(Rem())
    {
      if bytesLeft == 0 {
        return false, 0;
      }
      x := source[state];
      state, bytesLeft := state + 1, bytesLeft - 1;
      return true, x;
    }

    /** pb_read */
    method Read(count: nat) returns (ok: bool, data: seq<byte>)
      requires Valid()
      modifies this
      ensures Valid() && End() == old(End()) && (ok <==> count <= |old(Rem())|)
      ensures if ok then data == old(Rem())[..count] && Rem() == old(Rem())[count..] else Rem() == old(Rem())
    {
      if bytesLeft < count {
        return false, [];
      }
      data := source[state..state + count];
      state, bytesLeft := state + count, bytesLeft - count;
      return true, data;
    }
  }

  // ----- helper functions of pb_decode.c

  /** pb_decode_varint32_eof */
  method DecodeVarint32Eof(s: IStream) returns (ok: bool, v: nat, eof: bool)
    requires s.Valid()
    modifies s
    ensures s.Valid() && s.End() <= old(s.End()) && (ok ==> s.End() == old(s.End()))
    ensures ok <==> Dec32(old(s.Rem())).Good?
    ensures ok ==> Good(v, s.Rem()) == Dec32(old(s.Rem()))
    ensures !ok ==> (eof <==> old(s.Rem()) == [])
  {
    hide OrGroup, BadSignExtension;
    eof := false;
    var x: byte;
    ok, x := s.ReadByte();
    if !ok {
      return false, 0, s.bytesLeft == 0;
    }
    if x < 128 {
      return true, x, false;
    }
    var bitpos: nat := 7;
    v := x % 128;
    while true
      invariant s.Valid() && s.End() == old(s.End()) && bitpos < 256 && v < TWO_32
      invariant Dec32(old(s.Rem())) == Dec32From(s.Rem(), bitpos, v)
      decreases s.bytesLeft
    {
      ok, x := s.ReadByte();
      if !ok {
        return;
      }
      if bitpos >= 32 {
        if BadSignExtension(x, bitpos, v) {
          return false, 0, false;
        }
      } else {
        v := OrGroup(v, x, bitpos);
      }
      bitpos := (bitpos + 7) % 256;
      if x < 128 {
        break;
      }
    }
    if bitpos == 35 && x % 128 / 16 != 0 {
      return false, 0, false;
    }
    return true, v, false;
  }

  /** pb_decode_varint32 */
  method DecodeVarint32(s: IStream) returns (ok: bool, v: nat)
    requires s.Valid()
    modifies s
    ensures s.Valid() && s.End() <= old(s.End()) && (ok ==> s.End() == old(s.End()))
    ensures ok <==> Dec32(old(s.Rem())).Good?
    ensures ok ==> Good(v, s.Rem()) == Dec32(old(s.Rem()))
  {
    var eof;
    ok, v, eof := DecodeVarint32Eof(s);
  }

  lemma {:induction false} VarintPrefix(b: seq<byte>, k: nat)
    requires k < |b| && forall j :: 0 <= j < k ==> b[j] >= 128
    ensures b[k] < 128 ==> VarintLen(b) == Some(k + 1)
    ensures VarintLen(b).Some? ==> VarintLen(b).value >= k + 1
  {
    if k > 0 {
      VarintPrefix(b[1..], k - 1);
    }
  }

  lemma {:induction false} VarintUnterminated(b: seq<byte>)
    requires forall j :: 0 <= j < |b| ==> b[j] >= 128
    ensures VarintLen(b).None?
  {
    if b != [] {
      VarintUnterminated(b[1..]);
    }
  }

  lemma {:induction false} ValueAppend(b: seq<byte>, x: byte)
    ensures VarintValue(b + [x]) == VarintValue(b) + x as int % 128 * Pow2(7 * |b|)
  {
    if b != [] {
      assert (b + [x])[1..] == b[1..] + [x];
      ValueAppend(b[1..], x);
      Pow2Add(7, 7 * (|b| - 1));
      assert Pow2(7) == 128;
      Times128(VarintValue(b[1..]), x as int % 128, Pow2(7 * (|b| - 1)));
    }
  }

  lemma {:induction false} Times128(v: int, g: int, p: int)
    ensures 128 * (v + g * p) == 128 * v + g * (128 * p)
  {
  }

  lemma {:induction false} ValueBound(b: seq<byte>)
    ensures VarintValue(b) < Pow2(7 * |b|)
  {
    if b != [] {
      ValueBound(b[1..]);
      Pow2Add(7, 7 * (|b| - 1));
      assert Pow2(7) == 128;
    }
  }

  /** Or-ing the k-th group of a 64-bit varint, with the bits shifted out of the word dropped. */
  lemma {:induction false} OrGroup64(b: seq<byte>, x: byte)
    requires |b| <= 9
    ensures BitOr(VarintValue(b) % TWO_64, x as int % 128 * Pow2(7 * |b|) % TWO_64) == VarintValue(b + [x]) % TWO_64
  {
    hide Pow2, BitOr, VarintValue;
    var g: nat, k := x as int % 128, 7 * |b|;
    ValueAppend(b, x);
    ValueBound(b);
    Pow2Is64();
    Pow2Add(k, 64 - k);
    OrShifted(g, VarintValue(b), Pow2(k), Pow2(64 - k), k);
  }

  lemma {:induction false} OrShifted(g: nat, v: nat, p: nat, q: nat, k: nat)
    requires p == Pow2(k) && q >= 1 && p * q == TWO_64 && v < p
    ensures BitOr(v % TWO_64, g * p % TWO_64) == (v + g * p) % TWO_64
  {
    hide Pow2, BitOr;
    FactorAtMost(p, q);
    ShiftedOut(g, p, q);
    ModShift(v, g, p, q);
    BitOrDisjoint(v, g % q, k);
  }

  lemma {:induction false} FactorAtMost(p: nat, q: nat)
    requires p >= 1 && q >= 1 && p * q == TWO_64
    ensures p <= TWO_64
  {
    MulAtLeast(q, p);
  }

  lemma {:induction false} ShiftedOut(g: nat, p: nat, q: nat)
    requires p >= 1 && q >= 1 && p * q == TWO_64
    ensures g * p % TWO_64 == g % q * p
  {
    var d, m := g / q, g % q;
    assert g == d * q + m;
    assert g * p == d * TWO_64 + m * p by { assert (d * q) * p == d * (p * q); Expand(d * q, m, p); }
    assert m * p < TWO_64 by { Distribute(q, m, p); MulAtLeast(q - m, p); }
    ModUnique(g * p, TWO_64, d, m * p);
  }

  lemma {:induction false} Expand(x: int, y: int, p: int)
    ensures (x + y) * p == x * p + y * p
  {
  }

  lemma {:induction false} ModShift(v: nat, g: nat, p: nat, q: nat)
    requires p >= 1 && q >= 1 && p * q == TWO_64 && v < p
    ensures (v + g * p) % TWO_64 == v + g % q * p
  {
    var d, m := g / q, g % q;
    assert g == d * q + m;
    assert g * p == d * TWO_64 + m * p by { assert (d * q) * p == d * (p * q); Expand(d * q, m, p); }
    assert v + m * p < TWO_64 by { Distribute(q, m, p); MulAtLeast(q - m, p); }
    ModUnique(v + g * p, TWO_64, d, v + m * p);
  }

  /** pb_decode_varint */
  method DecodeVarint(s: IStream) returns (ok: bool, v: nat)
    requires s.Valid()
    modifies s
    ensures s.Valid() && s.End() <= old(s.End()) && (ok ==> s.End() == old(s.End()))
    ensures ok <==> DecVarint(old(s.Rem())).Good?
    ensures ok ==> Good(v, s.Rem()) == DecVarint(old(s.Rem()))
  {
    hide BitOr, VarintValue, VarintLen, Pow2;
    ghost var b := s.Rem();
    var bitpos := 0;
    v := 0;
    ghost var k := 0;
    assert VarintValue(b[..0]) == 0 by { ValueEmpty(); }
    while true
      invariant s.Valid() && s.End() == old(s.End()) && k <= |b| && s.Rem() == b[k..]
      invariant bitpos == 7 * k && k <= 10
      invariant forall j :: 0 <= j < k ==> b[j] >= 128
      invariant v == VarintValue(b[..k]) % TWO_64
      decreases s.bytesLeft
    {
      if bitpos >= 64 {
        if k < |b| {
          VarintPrefix(b, k);
        } else {
          VarintUnterminated(b);
        }
        return false, 0;
      }
      var x;
      ok, x := s.ReadByte();
      if !ok {
        VarintUnterminated(b);
        return;
      }
      OrGroup64(b[..k], x);
      assert b[..k] + [x] == b[..k + 1];
      v := BitOr(v, (x % 128) as int * Pow2(bitpos) % TWO_64);
      bitpos := bitpos + 7;
      k := k + 1;
      if x < 128 {
        VarintPrefix(b, k - 1);
        return true, v;
      }
    }
  }

  lemma {:induction false} ValueEmpty()
    ensures VarintValue([]) == 0
  {
  }

  /** pb_decode_tag */
  method DecodeTag(s: IStream) returns (ok: bool, wt: nat, tag: nat, eof: bool)
    requires s.Valid() && s.bytesLeft > 0
    modifies s
    ensures s.Valid() && s.End() <= old(s.End()) && (ok || eof ==> s.End() == old(s.End()))
    ensures ok ==> DecTag(old(s.Rem())) == Key(tag, wt, s.Rem())
    ensures !ok && eof ==> DecTag(old(s.Rem())) == TagEof(s.Rem())
    ensures !ok && !eof ==> DecTag(old(s.Rem())) == TagBad
  {
    hide Dec32;
    var temp;
    wt, tag := 0, 0;
    ok, temp, eof := DecodeVarint32Eof(s);
    if !ok {
      return;
    }
    if temp == 0 {
      return false, 0, 0, true;
    }
    return true, temp % 8, temp / 8, eof;
  }

  /** pb_skip_varint */
  method SkipVarint(s: IStream) returns (ok: bool)
    requires s.Valid()
    modifies s
    ensures s.Valid() && s.End() <= old(s.End()) && (ok ==> s.End() == old(s.End()))
    ensures ok <==> Skip(WT_VARINT, old(s.Rem())).Good?
    ensures ok ==> s.Rem() == Skip(WT_VARINT, old(s.Rem())).rest
  {
    hide VarintLen;
    ghost var b, k := s.Rem(), 0;
    var x: byte := 0x80;
    while x >= 128
      invariant s.Valid() && s.End() == old(s.End()) && k <= |b| && s.Rem() == b[k..]
      invariant x >= 128 ==> forall j :: 0 <= j < k ==> b[j] >= 128
      invariant x < 128 ==> VarintLen(b) == Some(k)
      decreases s.bytesLeft
    {
      var data;
      ok, data := s.Read(1);
      if !ok {
        VarintUnterminated(b);
        return;
      }
      x := data[0];
      if x < 128 {
        VarintPrefix(b, k);
      }
      k := k + 1;
    }
    return true;
  }

  /** pb_make_string_substream: the substream holds the string; the parent has given up its bytes
      and still stands at their start. */
  method MakeStringSubstream(s: IStream) returns (ok: bool, sub: IStream)
    requires s.Valid()
    modifies s
    ensures s.Valid() && s.End() <= old(s.End())
    ensures fresh(sub) && sub.Valid() && sub.source == s.source && sub.End() <= old(s.End())
    ensures ok <==> SubString(old(s.Rem())).Good?
    ensures ok ==> sub.Rem() == SubString(old(s.Rem())).v
    ensures ok ==> sub.End() + s.bytesLeft == old(s.End())
    ensures ok ==> s.source[sub.End()..sub.End() + s.bytesLeft] == SubString(old(s.Rem())).rest
  {
    hide Dec32;
    var size;
    ok, size := DecodeVarint32(s);
    if !ok || s.bytesLeft < size {
      sub := new IStream(s.source, s.state, 0);
      return false, sub;
    }
    ghost var r := s.Rem();
    sub := new IStream(s.source, s.state, size);
    s.bytesLeft := s.bytesLeft - size;
    assert r[..size] == sub.Rem();
    assert r[size..] == s.source[sub.End()..sub.End() + s.bytesLeft];
    return true, sub;
  }

  /** pb_close_string_substream: skips what the reader of the substream left, and moves the parent
      behind the string. */
  method CloseStringSubstream(s: IStream, sub: IStream)
    requires s.Valid() && sub.Valid() && s != sub && s.source == sub.source && sub.End() + s.bytesLeft <= |s.source|
    modifies s, sub
    ensures s.Valid() && s.bytesLeft == old(s.bytesLeft) && s.state == old(sub.End())
  {
    if sub.bytesLeft > 0 {
      var ok, data := sub.Read(sub.bytesLeft);
    }
    s.state := sub.state;
  }

  /** pb_skip_string */
  method SkipString(s: IStream) returns (ok: bool)
    requires s.Valid()
    modifies s
    ensures s.Valid() && s.End() <= old(s.End()) && (ok ==> s.End() == old(s.End()))
    ensures ok <==> Skip(WT_STRING, old(s.Rem())).Good?
    ensures ok ==> s.Rem() == Skip(WT_STRING, old(s.Rem())).rest
  {
    hide Dec32;
    var length;
    ok, length := DecodeVarint32(s);
    if !ok {
      return;
    }
    var data;
    ok, data := s.Read(length);
  }

  /** pb_skip_field */
  method SkipField(s: IStream, wt: nat) returns (ok: bool)
    requires s.Valid()
    modifies s
    ensures s.Valid() && s.End() <= old(s.End()) && (ok ==> s.End() == old(s.End()))
    ensures ok <==> Skip(wt, old(s.Rem())).Good?
    ensures ok ==> s.Rem() == Skip(wt, old(s.Rem())).rest
  {
    hide SubString, VarintLen;
    var data;
    if wt == WT_VARINT {
      ok := SkipVarint(s);
    } else if wt == WT_64BIT {
      ok, data := s.Read(8);
    } else if wt == WT_STRING {
      ok := SkipString(s);
    } else if wt == WT_32BIT {
      ok, data := s.Read(4);
    } else {
      return false;
    }
  }

  // ----- field decoders

  /** pb_dec_varint, pb_dec_uvarint, pb_dec_svarint, pb_dec_fixed32 and pb_dec_fixed64 */
  method DecodeScalar(s: IStream, f: Field) returns (ok: bool, v: Val)
    requires s.Valid() && WfLeaf(f) && Packable(f.ltype)
    modifies s
    ensures s.Valid() && s.End() <= old(s.End()) && (ok ==> s.End() == old(s.End()))
    ensures ok <==> DecLeaf(f, IntVal(0), old(s.Rem())).Good?
    ensures ok ==> Good(v, s.Rem()) == DecLeaf(f, IntVal(0), old(s.Rem()))
  {
    hide DecVarint, Pow2, Narrow, ToSigned, UnZigZag, FromLe32, FromLe64;
    v := IntVal(0);
    if f.ltype.Fixed32? || f.ltype.Fixed64? {
      var n := if f.ltype.Fixed32? then 4 else 8;
      var data;
      ok, data := s.Read(n);
      if ok {
        v := IntVal(if n == 4 then FromLe32(data) else FromLe64(data));
      }
      return;
    }
    var value;
    ok, value := DecodeVarint(s);
    if !ok {
      return;
    }
    if f.ltype.UVarint? {
      ok := value % Pow2(8 * f.dataSize) == value;
      v := IntVal(value);
    } else {
      var svalue := if f.ltype.SVarint? then UnZigZag(value)
                    else if f.dataSize == 8 then ToSigned(value, 64) else ToSigned(value, 32);
      ok := Narrow(svalue, f.dataSize) == svalue;
      v := IntVal(svalue);
    }
  }

  lemma {:induction false} ScalarIgnoresOld(f: Field, v: Val, w: Val, b: seq<byte>)
    requires Packable(f.ltype)
    ensures DecLeaf(f, v, b) == DecLeaf(f, w, b)
  {
    hide DecVarint, Narrow, ToSigned, UnZigZag, FromLe32, FromLe64, Pow2;
  }

  /** pb_dec_bytes, pb_dec_string and pb_dec_fixed_length_bytes */
  method DecodeBytes(s: IStream, f: Field, dest: Val) returns (ok: bool, v: Val)
    requires s.Valid() && WfLeaf(f) && (f.ltype.Bytes? || f.ltype.Str? || f.ltype.FixedBytes?) && ShapeLeaf(f, dest)
    modifies s
    ensures s.Valid() && s.End() <= old(s.End()) && (ok ==> s.End() == old(s.End()))
    ensures ok <==> DecLeaf(f, dest, old(s.Rem())).Good?
    ensures ok ==> Good(v, s.Rem()) == DecLeaf(f, dest, old(s.Rem()))
  {
    hide Dec32;
    var size, data;
    v := dest;
    ok, size := DecodeVarint32(s);
    if !ok {
      return;
    }
    ghost var r := s.Rem();
    assert size <= |r| ==> SubString(old(s.Rem())) == Good(r[..size], r[size..]);
    if f.ltype.Bytes? {
      if size + PB_SIZE_BYTES > f.dataSize {
        return false, v;
      }
      ok, data := s.Read(size);
      if ok {
        v := BytesVal(size, Overwrite(data, dest.buf));
      }
    } else if f.ltype.Str? {
      var allocSize := (size + 1) % TWO_32;
      if allocSize < size || allocSize > f.dataSize {
        return false, v;
      }
      ok, data := s.Read(size);
      if ok {
        v := StrVal(Overwrite(data + [0], dest.text));
      }
    } else {
      if size == 0 {
        v := RawVal(Zeros(f.dataSize));
        return;
      }
      if size != f.dataSize {
        return false, v;
      }
      ok, data := s.Read(f.dataSize);
      v := RawVal(data);
    }
  }

  /** The PB_DECODERS entries other than pb_dec_submessage. */
  method DecodeLeaf(s: IStream, f: Field, dest: Val) returns (ok: bool, v: Val)
    requires s.Valid() && WfLeaf(f) && ShapeLeaf(f, dest)
    modifies s
    ensures s.Valid() && s.End() <= old(s.End()) && (ok ==> s.End() == old(s.End()))
    ensures ok <==> DecLeaf(f, dest, old(s.Rem())).Good?
    ensures ok ==> Good(v, s.Rem()) == DecLeaf(f, dest, old(s.Rem()))
  {
    hide DecLeaf;
    if Packable(f.ltype) {
      ScalarIgnoresOld(f, IntVal(0), dest, s.Rem());
      ok, v := DecodeScalar(s, f);
    } else {
      ok, v := DecodeBytes(s, f, dest);
    }
  }

  /** pb_dec_submessage, or the leaf decoder. */
  method DecodeValue(s: IStream, f: Field, dest: Val) returns (ok: bool, v: Val)
    requires s.Valid() && WfField(f) && ShapeVal(f, dest)
    modifies s
    ensures s.Valid() && s.End() <= old(s.End()) && (ok ==> s.End() == old(s.End()))
    ensures ok <==> DecVal(f, dest, old(s.Rem())).Good?
    ensures ok ==> Good(v, s.Rem()) == DecVal(f, dest, old(s.Rem()))
    decreases s.bytesLeft, 0
  {
    hide DecLeaf, SubString, SetDefaults, DecMsg;
    if !f.ltype.Submsg? {
      ok, v := DecodeLeaf(s, f, dest);
      return;
    }
    ghost var b := s.Rem();
    v := dest;
    var sub;
    ok, sub := MakeStringSubstream(s);
    if !ok {
      return;
    }
    ghost var body := sub.Rem();
    var st: Msg := dest.slots;
    if f.htype.Repeated? {
      ok, st := Decode(sub, f.ltype.fields, dest.slots);
    } else {
      ok, st := DecodeNoinit(sub, f.ltype.fields, dest.slots);
    }
    v := MsgVal(st);
    CloseStringSubstream(s, sub);
  }

  // ----- one field

  /** A packed array from its substream, as far as it goes. */
  method DecodePacked(sub: IStream, f: Field, a: Array) returns (ok: bool, r: Array)
    requires sub.Valid() && WfField(f) && Packable(f.ltype) && ShapeItems(f, a.items)
    modifies sub
    ensures sub.Valid() && sub.End() <= old(sub.End()) && (ok ==> sub.End() == old(sub.End()))
    ensures ok && sub.bytesLeft == 0 <==> DecPacked(f, a, old(sub.Rem())).Some?
    ensures ok && sub.bytesLeft == 0 ==> Some(r) == DecPacked(f, a, old(sub.Rem()))
  {
    hide DecLeaf;
    r, ok := a, true;
    while sub.bytesLeft > 0 && r.count < f.arraySize
      invariant sub.Valid() && sub.End() == old(sub.End()) && ShapeItems(f, r.items) && ok
      invariant DecPacked(f, a, old(sub.Rem())) == DecPacked(f, r, sub.Rem())
      decreases sub.bytesLeft
    {
      assert ShapeVal(f, r.items[r.count]);
      DecLeafLayoutIfGood(f, r.items[r.count], sub.Rem());
      var v;
      ok, v := DecodeLeaf(sub, f, r.items[r.count]);
      if !ok {
        return;
      }
      r := Array(r.count + 1, r.items[r.count := v]);
    }
  }

  lemma {:induction false} DecLeafLayoutIfGood(f: Field, dest: Val, b: seq<byte>)
    requires WfLeaf(f) && ShapeLeaf(f, dest)
    ensures DecLeaf(f, dest, b).Good? ==> ShapeLeaf(f, DecLeaf(f, dest, b).v)
  {
    hide DecLeaf;
    if DecLeaf(f, dest, b).Good? {
      DecLeafLayout(f, dest, b);
    }
  }

  /** The PB_HTYPE_REPEATED case of decode_static_field. Refusing an element beyond the array
      still counts it. */
  method DecodeArray(s: IStream, f: Field, a: Array, wt: nat) returns (ok: bool, r: Array)
    requires s.Valid() && WfField(f) && ShapeItems(f, a.items)
    modifies s
    ensures s.Valid() && s.End() <= old(s.End()) && (ok ==> s.End() == old(s.End()))
    ensures ok <==> DecArray(f, a, wt, old(s.Rem())).Good?
    ensures ok ==> Good(r, s.Rem()) == DecArray(f, a, wt, old(s.Rem()))
    ensures !ok && !(wt == WT_STRING && Packable(f.ltype)) ==> r.count == a.count + 1
    decreases s.bytesLeft, 1
  {
    hide DecPacked, SubString, DecVal, ShapeVal;
    r := a;
    if wt == WT_STRING && Packable(f.ltype) {
      var sub, status;
      ok, sub := MakeStringSubstream(s);
      if !ok {
        return;
      }
      status, r := DecodePacked(sub, f, a);
      if sub.bytesLeft != 0 {
        return false, r;
      }
      CloseStringSubstream(s, sub);
      ok := status;
    } else {
      r := Array(a.count + 1, a.items);
      if a.count >= f.arraySize {
        return false, r;
      }
      var v;
      ok, v := DecodeValue(s, f, a.items[a.count]);
      if ok {
        r := Array(a.count + 1, a.items[a.count := v]);
      }
    }
  }

  /** decode_static_field */
  method DecodeStaticField(s: IStream, f: Field, slot: Slot, fixedSize: nat, wt: nat) returns (ok: bool, r: SlotSize)
    requires s.Valid() && WfField(f) && ShapeSlot(f, slot)
    modifies s
    ensures s.Valid() && s.End() <= old(s.End()) && (ok ==> s.End() == old(s.End()))
    ensures ok <==> DecField(f, slot, fixedSize, wt, old(s.Rem())).Good?
    ensures ok ==> Good(r, s.Rem()) == DecField(f, slot, fixedSize, wt, old(s.Rem()))
    decreases s.bytesLeft, 2
  {
    hide DecArray, DecVal, ShapeVal, UnionInit;
    r := SlotSize(slot, fixedSize);
    var v, a;
    match f.htype
    case Required =>
      ok, v := DecodeValue(s, f, slot.v);
      r := SlotSize(Plain(v), fixedSize);
    case Optional =>
      ok, v := DecodeValue(s, f, slot.v);
      r := SlotSize(if IsSingular(f) then Plain(v) else Opt(true, v), fixedSize);
    case Repeated =>
      assert ShapeItems(f, slot.items);
      if IsFixedCount(f) {
        ok, a := DecodeArray(s, f, Array(fixedSize, slot.items), wt);
        r := SlotSize(FixedRep(a.items), a.count);
      } else {
        ok, a := DecodeArray(s, f, Array(slot.count, slot.items), wt);
        r := SlotSize(Rep(a.count, a.items), fixedSize);
      }
    case Oneof =>
      UnionInitShape(f, slot);
      ok, v := DecodeValue(s, f, UnionInit(f, slot.which, slot.v));
      r := SlotSize(Union(f.tag, v), fixedSize);
  }

  // ----- the bitmap of required fields

  /** fields_seen holds exactly these indices. */
  ghost predicate Tracks(words: seq<nat>, seen: set<nat>)
  {
    |words| == 2 && words[0] < TWO_32 && words[1] < TWO_32 &&
    (forall k :: 0 <= k < 32 ==> (Bit(words[0], k) <==> k in seen)) &&
    (forall k :: 0 <= k < 32 ==> (Bit(words[1], k) <==> k + 32 in seen))
  }

  lemma {:induction false} MarkBit(word: nat, i: nat)
    requires word < TWO_32 && i < 32
    ensures BitOr(word, Pow2(i)) < TWO_32
    ensures forall k :: 0 <= k < 32 ==> (Bit(BitOr(word, Pow2(i)), k) <==> Bit(word, k) || k == i)
  {
    Pow2Is64();
    Pow2Less(i, 32);
    OrBound(word, Pow2(i), 32);
    forall k | 0 <= k < 32 ensures Bit(BitOr(word, Pow2(i)), k) <==> Bit(word, k) || k == i {
      BitOfOr(word, Pow2(i), k);
      BitOfPow2(i, k);
    }
  }

  lemma {:induction false} Pow2Less(i: nat, n: nat)
    requires i < n
    ensures Pow2(i) < Pow2(n)
  {
    if i + 1 < n {
      Pow2Less(i, n - 1);
    }
  }

  /** fields_seen[i >> 5] |= 1 << (i & 31) */
  method MarkSeen(words: array<nat>, i: nat, ghost seen: set<nat>)
    requires words.Length == 2 && i < PB_MAX_REQUIRED_FIELDS && Tracks(words[..], seen)
    modifies words
    ensures Tracks(words[..], seen + {i})
  {
    hide Pow2, Bit, BitOr;
    MarkBit(words[i / 32], i % 32);
    words[i / 32] := BitOr(words[i / 32], Pow2(i % 32));
  }

  predicate LowBits(word: nat, n: nat)
  {
    forall k :: 0 <= k < n ==> Bit(word, k)
  }

  lemma {:induction false} WordFull(word: nat, n: nat)
    requires word < TWO_32 && n <= 32 && forall k :: n <= k < 32 ==> !Bit(word, k)
    ensures word == Pow2(n) - 1 <==> LowBits(word, n)
  {
    Pow2Is64();
    Pow2Monotone(n, 32);
    OnesBits(n);
    var ones := Ones(n);
    assert LowBits(ones, n);
    if LowBits(word, n) {
      forall k | 0 <= k < 32 ensures Bit(word, k) <==> Bit(ones, k) {
        assert Bit(Ones(n), k) <==> k < n;
      }
      SameBits(word, ones, 32);
    }
  }

  lemma {:induction false} OnesBits(n: nat)
    ensures forall k: nat :: Bit(Ones(n), k) <==> k < n
  {
    forall k: nat ensures Bit(Ones(n), k) <==> k < n {
      BitOfOnes(n, k);
    }
  }

  function Ones(n: nat): nat
  {
    Pow2(n) - 1
  }

  /** ~0 >> (32 - n) */
  lemma {:induction false} OnesShifted(n: nat, m: nat)
    requires n <= m
    ensures (Pow2(m) - 1) / Pow2(m - n) == Pow2(n) - 1
  {
    Pow2Add(n, m - n);
    var p, q := Pow2(n), Pow2(m - n);
    assert p * q - 1 == (p - 1) * q + (q - 1) by { Distribute(p, 1, q); }
    ModUnique(p * q - 1, q, p - 1, q - 1);
  }

  /** The word-by-word test at the end of pb_decode_noinit. */
  method CheckSeen(words: array<nat>, count: nat, ghost seen: set<nat>) returns (ok: bool)
    requires words.Length == 2 && count <= PB_MAX_REQUIRED_FIELDS && Tracks(words[..], seen)
    requires forall k :: k in seen ==> k < count
    ensures ok <==> forall k :: 0 <= k < count ==> k in seen
  {
    hide Pow2, Bit, BitOr;
    Pow2Is64();
    OnesShifted(count % 32, 32);
    for i := 0 to count / 32
      invariant forall k :: 0 <= k < 32 * i ==> k in seen
    {
      WordFull(words[i], 32);
      if words[i] != TWO_32 - 1 {
        MissingIn(words[..], seen, i);
        return false;
      }
      assert forall k :: 32 * i <= k < 32 * i + 32 ==> k in seen by {
        FullIn(words[..], seen, i);
      }
    }
    if count % 32 != 0 {
      LastWord(words[..], count, seen);
      if words[count / 32] != (TWO_32 - 1) / Pow2(32 - count % 32) {
        return false;
      }
    }
    return true;
  }

  lemma {:induction false} MissingIn(words: seq<nat>, seen: set<nat>, i: nat)
    requires Tracks(words, seen) && i < 2 && exists k :: 0 <= k < 32 && !Bit(words[i], k)
    ensures exists k :: 32 * i <= k < 32 * i + 32 && k !in seen
  {
    hide Bit;
    var k :| 0 <= k < 32 && !Bit(words[i], k);
    assert 32 * i + k !in seen;
  }

  lemma {:induction false} FullIn(words: seq<nat>, seen: set<nat>, i: nat)
    requires Tracks(words, seen) && i < 2 && forall k :: 0 <= k < 32 ==> Bit(words[i], k)
    ensures forall k :: 32 * i <= k < 32 * i + 32 ==> k in seen
  {
    hide Bit;
    forall k | 32 * i <= k < 32 * i + 32 ensures k in seen {
      assert Bit(words[i], k - 32 * i);
    }
  }

  lemma {:induction false} LastWord(words: seq<nat>, count: nat, seen: set<nat>)
    requires Tracks(words, seen) && count < PB_MAX_REQUIRED_FIELDS && count % 32 != 0
    requires forall k :: k in seen ==> k < count
    ensures words[count / 32] == Pow2(count % 32) - 1 <==> forall k :: 32 * (count / 32) <= k < count ==> k in seen
  {
    hide Bit, Pow2;
    var i, n := count / 32, count % 32;
    forall k | n <= k < 32 ensures !Bit(words[i], k) {
      assert 32 * i + k !in seen;
    }
    WordFull(words[i], n);
    if words[i] == Pow2(n) - 1 {
      forall k | 32 * i <= k < count ensures k in seen {
        assert Bit(words[i], k - 32 * i);
      }
    }
    if forall k :: 32 * i <= k < count ==> k in seen {
      forall k | 0 <= k < n ensures Bit(words[i], k) {
        assert 32 * i + k in seen;
      }
    }
  }

  // ----- messages

  /** pb_field_set_to_default for one field after the other. */
  method MessageSetToDefaults(fields: seq<Field>, st: Msg) returns (r: Msg)
    ensures r == SetDefaults(fields, st)
  {
    hide SlotOf, DefaultSlot, FieldIter.Valid;
    var iter := new FieldIter(fields, 0);
    var more := fields != [];
    ghost var i := 0;
    r := st;
    while more
      invariant iter.Valid() && fresh(iter) && iter.start == fields
      invariant i <= |fields| && (more ==> iter.pos == i < |fields|) && (!more ==> i == |fields|)
      invariant DefaultsFrom(fields, r, i) == SetDefaults(fields, st)
      decreases |fields| - i
    {
      var k := SlotOf(fields, iter.pos);
      if k < |r| {
        r := r[k := DefaultSlot(fields[iter.pos], r[k])];
      }
      more := iter.Next();
      i := i + 1;
    }
  }

  /** pb_decode */
  method Decode(s: IStream, fields: seq<Field>, st: Msg) returns (ok: bool, r: Msg)
    requires s.Valid() && WfFields(fields) && ShapeMsg(fields, st)
    modifies s
    ensures s.Valid() && s.End() <= old(s.End()) && (ok ==> s.End() == old(s.End()))
    ensures ok <==> PbDecode.Decode(fields, st, old(s.Rem())).Good?
    ensures ok ==> Good(r, s.Rem()) == PbDecode.Decode(fields, st, old(s.Rem()))
    decreases s.bytesLeft, 7
  {
    hide DecMsg, SetDefaults, ShapeMsg, WfFields;
    SetDefaultsShape(fields, st);
    r := MessageSetToDefaults(fields, st);
    ok, r := DecodeNoinit(s, fields, r);
  }

  /** The variables of the loop as the specification sees them. */
  ghost predicate Mirrors(fields: seq<Field>, ls: LoopState, words: seq<nat>, pos: nat, fixed: Option<nat>,
                          fixedSize: nat)
  {
    LoopOk(fields, ls) && ls.pos == pos && ls.fixed == fixed && ls.fixedSize == fixedSize && Tracks(words, ls.seen) &&
    forall k :: k in ls.seen ==> k < Min(RequiredBefore(fields, |fields|), PB_MAX_REQUIRED_FIELDS)
  }

  /** The loop body of pb_decode_noinit behind a successful search: fixed-count bookkeeping, the
      required-field bit, and the field. */
  method DecodeFound(s: IStream, fields: seq<Field>, i: nat, reqIndex: nat, words: array<nat>, wt: nat,
                     fixed: Option<nat>, fixedSize: nat, st: Msg, ghost ls: LoopState)
    returns (ok: bool, fixed': Option<nat>, fixedSize': nat, r: Msg, ghost ls': LoopState)
    requires s.Valid() && WfFields(fields) && ShapeMsg(fields, st) && i < |fields| && words.Length == 2
    requires reqIndex == RequiredBefore(fields, i)
    requires Mirrors(fields, ls, words[..], ls.pos, fixed, fixedSize) && ls.st == st
    modifies s, words
    ensures s.Valid() && s.End() <= old(s.End()) && (ok ==> s.End() == old(s.End()))
    ensures ok ==> StepField(fields, ls, i, wt, old(s.Rem())) == StepOk(ls', s.Rem())
    ensures ok ==> Mirrors(fields, ls', words[..], i, fixed', fixedSize') && ls'.st == r && ShapeMsg(fields, r)
    ensures !ok ==> StepField(fields, ls, i, wt, old(s.Rem())) == StepBad
    decreases s.bytesLeft, 3
  {
    hide RequiredBefore, Tracks, DecField, ShapeSlot, WfField;
    var f, k := fields[i], SlotOf(fields, i);
    fixed', fixedSize', r, ls' := fixed, fixedSize, st, ls;
    if IsFixedCount(f) && fixed != Some(i) {
      if fixed.Some? && fixedSize != fields[fixed.value].arraySize {
        return false, fixed, fixedSize, st, ls;
      }
      fixed', fixedSize' := Some(i), 0;
    }
    if f.htype.Required? && reqIndex < PB_MAX_REQUIRED_FIELDS {
      RequiredBeforeMonotone(fields, i, |fields|);
      MarkSeen(words, reqIndex, ls.seen);
    }
    ghost var ls1 := Found(fields, ls, i).value;
    assert Mirrors(fields, ls1, words[..], i, fixed', fixedSize');
    var d;
    ghost var b := s.Rem();
    ok, d := DecodeStaticField(s, f, st[k], fixedSize', wt);
    if !ok {
      return;
    }
    r, fixedSize' := st[k := d.slot], d.fixedSize;
    ls' := ls1.(st := r, fixedSize := fixedSize');
    assert StepField(fields, ls, i, wt, b) == StepOk(ls', s.Rem());
    StepFieldLayout(fields, ls, i, wt, b);
  }

  /** One iteration of the loop of pb_decode_noinit. */
  method DecodeNext(s: IStream, fields: seq<Field>, iter: FieldIter, words: array<nat>,
                    fixed: Option<nat>, fixedSize: nat, st: Msg, ghost ls: LoopState)
    returns (zeroKey: bool, ok: bool, fixed': Option<nat>, fixedSize': nat, r: Msg, ghost ls': LoopState)
    requires s.Valid() && s.bytesLeft > 0 && WfFields(fields) && ShapeMsg(fields, st) && words.Length == 2
    requires iter.Valid() && iter.start == fields
    requires Mirrors(fields, ls, words[..], iter.pos, fixed, fixedSize) && ls.st == st
    modifies s, iter, words
    ensures s.Valid() && s.End() <= old(s.End()) && (ok || zeroKey ==> s.End() == old(s.End()))
    ensures iter.Valid()
    ensures zeroKey ==> Step(fields, ls, old(s.Rem())) == StepEof(s.Rem()) && ls' == ls
    ensures !zeroKey && ok ==> Step(fields, ls, old(s.Rem())) == StepOk(ls', s.Rem())
    ensures !zeroKey && !ok ==> Step(fields, ls, old(s.Rem())) == StepBad
    ensures zeroKey || ok ==> Mirrors(fields, ls', words[..], iter.pos, fixed', fixedSize') && ls'.st == r && ShapeMsg(fields, r)
    decreases s.bytesLeft, 4
  {
    hide Dec32, ShapeMsg, WfFields, RequiredBefore, Tracks, StepField, FindFrom, Skip, LoopOk;
    zeroKey, fixed', fixedSize', r, ls' := false, fixed, fixedSize, st, ls;
    var wt, tag, eof, found;
    ghost var b := s.Rem();
    ok, wt, tag, eof := DecodeTag(s);
    if !ok {
      zeroKey := eof;
      return;
    }
    ghost var rest := s.Rem();
    assert Step(fields, ls, b) == StepKey(fields, ls, tag, wt, rest);
    found := iter.Find(tag);
    if !found {
      ok := SkipField(s, wt);
      return;
    }
    if iter.pos == |fields| {
      // the terminator of an empty descriptor: pb_dec_varint refuses its data size
      var value;
      ok, value := DecodeVarint(s);
      return false, false, fixed, fixedSize, st, ls;
    }
    ok, fixed', fixedSize', r, ls' := DecodeFound(s, fields, iter.pos, iter.requiredFieldIndex, words, wt, fixed, fixedSize, st, ls);
  }

  /** The required-field check at the end of pb_decode_noinit: the iterator runs to the last field
      to count the required ones. */
  method CheckRequired(fields: seq<Field>, iter: FieldIter, words: array<nat>, ghost seen: set<nat>) returns (ok: bool)
    requires iter.Valid() && iter.start == fields && words.Length == 2 && Tracks(words[..], seen)
    requires forall k :: k in seen ==> k < Min(RequiredBefore(fields, |fields|), PB_MAX_REQUIRED_FIELDS)
    modifies iter
    ensures ok <==> RequiredSeen(fields, seen)
  {
    hide Tracks;
    var count, lastRequired := 0, true;
    var more := true;
    while more
      invariant iter.Valid() && (more && fields != [] ==> iter.pos < |fields|)
      invariant !more && fields != [] ==> count == RequiredBefore(fields, |fields| - 1)
      invariant !more && fields != [] ==> lastRequired == fields[|fields| - 1].htype.Required?
      invariant fields == [] ==> count == 0
      decreases more, |fields| - iter.pos
    {
      count := iter.requiredFieldIndex;
      // the terminator has the type of a required field
      lastRequired := iter.pos == |fields| || fields[iter.pos].htype.Required?;
      more := iter.Next();
    }
    if lastRequired && iter.pos < |fields| {
      count := count + 1;
    }
    ok := CheckSeen(words, if count > PB_MAX_REQUIRED_FIELDS then PB_MAX_REQUIRED_FIELDS else count, seen);
  }

  /** pb_decode_noinit */
  method DecodeNoinit(s: IStream, fields: seq<Field>, st: Msg) returns (ok: bool, r: Msg)
    requires s.Valid() && WfFields(fields) && ShapeMsg(fields, st)
    modifies s
    ensures s.Valid() && s.End() <= old(s.End()) && (ok ==> s.End() == old(s.End()))
    ensures ok <==> DecMsg(fields, st, old(s.Rem())).Good?
    ensures ok ==> Good(r, s.Rem()) == DecMsg(fields, st, old(s.Rem()))
    decreases s.bytesLeft, 6
  {
    hide Step, ShapeMsg, WfFields, RequiredBefore, Tracks, FieldIter.Valid;
    ghost var b := s.Rem();
    var fieldsSeen := new nat[2](_ => 0);
    var iter := new FieldIter(fields, 0);
    var fixed: Option<nat> := None;
    var fixedSize := 0;
    r := st;
    ghost var ls := Start(st);
    NothingSeen(fieldsSeen[..]);
    var zeroKey := false;
    while s.bytesLeft > 0 && !zeroKey
      invariant s.Valid() && s.End() == old(s.End())
      invariant iter.Valid() && fresh(iter) && iter.start == fields && fresh(fieldsSeen)
      invariant Mirrors(fields, ls, fieldsSeen[..], iter.pos, fixed, fixedSize) && ls.st == r && ShapeMsg(fields, r)
      invariant !zeroKey ==> Loop(fields, Start(st), b) == Loop(fields, ls, s.Rem())
      invariant zeroKey ==> Loop(fields, Start(st), b) == LoopEnd(ls, s.Rem(), true)
      decreases !zeroKey, s.bytesLeft
    {
      zeroKey, ok, fixed, fixedSize, r, ls := DecodeNext(s, fields, iter, fieldsSeen, fixed, fixedSize, r, ls);
      if !zeroKey && !ok {
        return;
      }
    }
    if fixed.Some? && fixedSize != fields[fixed.value].arraySize {
      return false, r;
    }
    ok := CheckRequired(fields, iter, fieldsSeen, ls.seen);
  }

  lemma {:induction false} NothingSeen(words: seq<nat>)
    requires |words| == 2 && words[0] == 0 && words[1] == 0
    ensures Tracks(words, {})
  {
    hide Bit;
    forall k: nat ensures !Bit(0, k) {
      BitOfZero(k);
    }
  }
}
