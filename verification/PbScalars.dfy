/** Scalars on the wire, with the bytes written out, and on any varint. */
module PbScalars {
  import opened Bits
  import opened PbTypes
  import opened Prelude
  import opened PbVarint
  import opened PbEncode
  import opened PbDecode
  import opened PbWellFormed
  import opened PbRoundTrip
  import opened PbObserve

  // ----- the mappings

  /** Zigzag interleaves: 0, -1, 1, -2, 2, ... */
  lemma {:induction false} ZigZagValue(n: int)
    requires -TWO_63 <= n < TWO_63
    ensures ZigZag(n) == if n >= 0 then 2 * n else -2 * n - 1
  {
    if n < 0 {
      ModUnique(2 * n, TWO_64, -1, 2 * n + TWO_64);
    }
  }

  lemma {:induction false} GroupsBit(g: nat, r: nat, i: nat)
    requires g < 128
    ensures Bit(g + 128 * r, i) <==> if i < 7 then Bit(g, i) else Bit(r, i - 7)
  {
    assert Pow2(7) == 128;
    BitOrDisjoint(g, r, 7);
    BitOfOr(g, r * Pow2(7), i);
    BitOfShift(r, 7, i);
    if i >= 7 {
      NoHighBits(g, 7, i);
    }
  }

  /** Bit i of a varint is bit i % 7 of its group i / 7. */
  lemma {:induction false} VarintBits(b: seq<byte>, i: nat)
    ensures Bit(VarintValue(b), i) <==> i / 7 < |b| && Bit(b[i / 7], i % 7)
  {
    if b == [] {
      BitOfZero(i);
    } else {
      var g, r := b[0] as int % 128, VarintValue(b[1..]);
      assert VarintValue(b) == g + 128 * r;
      hide Bit, VarintValue;
      GroupsBit(g, r, i);
      if i < 7 {
        assert Pow2(7) == 128;
        BitOfMod(b[0], 7, i);
      } else {
        VarintBits(b[1..], i - 7);
        assert (i - 7) / 7 == i / 7 - 1 && (i - 7) % 7 == i % 7;
        assert i / 7 < |b| ==> b[1..][i / 7 - 1] == b[i / 7];
      }
    }
  }

  /** The 64-bit decoder on any bytes: it accepts up to ten groups and drops what lies above bit 63. */
  lemma {:induction false} DecVarintOnAnyBytes(b: seq<byte>)
    ensures DecVarint(b).Good? <==> VarintLen(b).Some? && VarintLen(b).value <= 10
    ensures DecVarint(b).Good? ==>
              && DecVarint(b).rest == b[VarintLen(b).value..]
              && 0 <= DecVarint(b).v < TWO_64
              && forall i :: 0 <= i < 64 ==>
                   (Bit(DecVarint(b).v, i) <==> i / 7 < VarintLen(b).value && Bit(b[i / 7], i % 7))
  {
    if DecVarint(b).Good? {
      var n := VarintLen(b).value;
      Pow2Is64();
      hide Bit, Pow2, VarintLen;
      forall i | 0 <= i < 64 ensures Bit(DecVarint(b).v, i) <==> i / 7 < n && Bit(b[i / 7], i % 7) {
        BitOfMod(VarintValue(b[..n]), 64, i);
        VarintBits(b[..n], i);
      }
    }
  }

  // ----- integers of any width

  /** n is what a two's complement word of m values makes of u. */
  ghost predicate Wraps(n: int, u: int, m: nat)
    requires m > 0
  {
    0 <= 2 * n + m < 2 * m && exists q :: u == n + q * m
  }

  lemma {:induction false} ToSignedWraps(u: int, bits: nat)
    ensures Wraps(ToSigned(u, bits), u, Pow2(bits))
  {
    var m := Pow2(bits);
    hide Pow2;
    var q, r := u / m, u % m;
    assert u == r + q * m;
    if 2 * r >= m {
      Distribute(q, -1, m);
      assert u == r - m + (q + 1) * m;
    }
  }

  lemma {:induction false} NarrowExact(x: int, size: nat)
    requires IsIntSize(size)
    ensures Narrow(x, size) == x <==> IntFits(Varint, size, x)
  {
    var m := Pow2(8 * size);
    hide Pow2;
    ToSignedWraps(x, 8 * size);
    if -m <= 2 * x < m {
      var n := ToSigned(x, 8 * size);
      var q :| x == n + q * m;
      if q >= 1 {
        MulAtLeast(q, m);
      } else if q <= -1 {
        MulAtLeast(-q, m);
        Distribute(0, q, m);
      }
    }
  }

  /** int32 and narrower take any varint as a 32-bit word, int64 as a 64-bit word; what does not fit
      the member is refused. */
  lemma {:induction false} IntOnAnyVarint(f: Field, old_: Val, u: nat, rest: seq<byte>) returns (n: int)
    requires f.ltype.Varint? && IsIntSize(f.dataSize) && u < TWO_64
    ensures Wraps(n, u, if f.dataSize == 8 then TWO_64 else TWO_32)
    ensures DecLeaf(f, old_, EncVarint(u) + rest) == if IntFits(f.ltype, f.dataSize, n) then Good(IntVal(n), rest) else Bad
  {
    hide DecVarint, EncVarint;
    VarintRoundTrip(u, rest);
    Pow2Is64();
    n := ToSigned(u, if f.dataSize == 8 then 64 else 32);
    ToSignedWraps(u, if f.dataSize == 8 then 64 else 32);
    hide Pow2, ToSigned;
    NarrowExact(n, f.dataSize);
  }

  /** Unsigned fields refuse what does not fit, and so do zigzag fields. */
  lemma {:induction false} UnsignedOnAnyVarint(f: Field, old_: Val, u: nat, rest: seq<byte>)
    requires f.ltype.UVarint? && IsIntSize(f.dataSize) && u < TWO_64
    ensures DecLeaf(f, old_, EncVarint(u) + rest) == if u < Pow2(8 * f.dataSize) then Good(IntVal(u), rest) else Bad
  {
    hide DecVarint, EncVarint, Pow2;
    VarintRoundTrip(u, rest);
    var m := Pow2(8 * f.dataSize);
    if u < m {
      ModUnique(u, m, 0, u);
    }
  }

  lemma {:induction false} ZigZagOnAnyVarint(f: Field, old_: Val, n: int, rest: seq<byte>)
    requires f.ltype.SVarint? && IsIntSize(f.dataSize) && -TWO_63 <= n < TWO_63
    ensures DecLeaf(f, old_, EncVarint(ZigZag(n)) + rest) == if IntFits(f.ltype, f.dataSize, n) then Good(IntVal(n), rest) else Bad
  {
    hide DecVarint, EncVarint;
    ZigZagRoundTrip(n);
    VarintRoundTrip(ZigZag(n), rest);
    hide Pow2, ZigZag, UnZigZag, ToSigned;
    NarrowExact(n, f.dataSize);
  }

  /** Strings and byte fields: exactly what the buffer holds, a string with its terminator. */
  lemma {:induction false} BytesOnAnyChunk(f: Field, old_: Val, data: seq<byte>, rest: seq<byte>)
    requires WfLeaf(f) && ShapeLeaf(f, old_) && (f.ltype.Bytes? || f.ltype.Str? || f.ltype.FixedBytes?)
    requires |data| < TWO_32
    ensures var d := DecLeaf(f, old_, Prefixed(data) + rest);
            match f.ltype
            case Bytes => (d.Good? <==> |data| <= |old_.buf|) &&
                          (d.Good? ==> d.rest == rest && d.v.BytesVal? && d.v.size == |data| && d.v.buf == data + old_.buf[|data|..])
            case Str => (d.Good? <==> |data| < |old_.text|) &&
                        (d.Good? ==> d.rest == rest && d.v.StrVal? && d.v.text == data + [0] + old_.text[|data| + 1..])
            case _ => (d.Good? <==> |data| == 0 || |data| == f.dataSize) &&
                      (d.Good? ==> d.rest == rest && d.v == RawVal(if |data| == 0 then Zeros(f.dataSize) else data))
  {
    hide SubString, EncVarint;
    SubStringOf(data, rest);
  }

  // ----- bytes

  lemma {:induction false} SmallVarint(v: nat)
    requires v <= 0x7F
    ensures EncVarint(v) == [v]
  {
  }

  lemma {:induction false} TaggedBytes(f: Field, v: Val, key: byte, body: seq<byte>)
    requires !f.ltype.Submsg? && EncLeaf(f, v) == Some(body) && f.tag * 8 + WireType(f.ltype) == key <= 0x7F
    ensures EncTagged(f, v) == Some([key] + body)
  {
    hide EncLeaf, EncVarint;
    SmallVarint(key);
  }

  lemma {:induction false} VarintBytes()
    ensures EncVarint(300) == [0xAC, 2]
  {
    SmallVarint(2);
    assert EncVarint(300) == [172] + EncVarint(2);
  }

  /** Fixed-width fields, byte by byte. */
  lemma {:induction false} FixedBytesAre()
    ensures Le32(0x01020304) == [4, 3, 2, 1] && Le64(0x0102030405060708) == [8, 7, 6, 5, 4, 3, 2, 1]
    ensures EncTagged(Field(1, Fixed32, Required, 0, 0, 4, 0, None), IntVal(7)) == Some([13] + [7, 0, 0, 0])
    ensures EncTagged(Field(1, Fixed64, Required, 0, 0, 8, 0, None), IntVal(7)) == Some([9] + [7, 0, 0, 0, 0, 0, 0, 0])
  {
    var f32, f64 := Field(1, Fixed32, Required, 0, 0, 4, 0, None), Field(1, Fixed64, Required, 0, 0, 8, 0, None);
    assert Le32(7) == [7, 0, 0, 0] && Le64(7) == [7, 0, 0, 0, 0, 0, 0, 0];
    assert EncLeaf(f32, IntVal(7)) == Some(Le32(7)) && EncLeaf(f64, IntVal(7)) == Some(Le64(7));
    TaggedBytes(f32, IntVal(7), 13, Le32(7));
    TaggedBytes(f64, IntVal(7), 9, Le64(7));
  }

  /** Varint and string fields, byte by byte. */
  lemma {:induction false} KnownBytes()
    ensures EncTagged(Field(2, UVarint, Required, 0, 0, 4, 0, None), IntVal(300)) == Some([16] + [0xAC, 2])
    ensures EncTagged(Field(1, SVarint, Required, 0, 0, 4, 0, None), IntVal(-1)) == Some([8] + [1])
    ensures EncTagged(Field(3, Str, Required, 0, 0, 4, 0, None), StrVal([104, 105, 0, 0])) == Some([26] + ([2] + [104, 105]))
  {
    SmallVarint(1);
    SmallVarint(2);
    VarintBytes();
    ZigZagValue(-1);
    HiIsHi();
    hide EncVarint, CString, ZigZag;
    var uint := Field(2, UVarint, Required, 0, 0, 4, 0, None);
    assert EncLeaf(uint, IntVal(300)) == Some(EncVarint(300));
    TaggedBytes(uint, IntVal(300), 16, EncVarint(300));
    var sint := Field(1, SVarint, Required, 0, 0, 4, 0, None);
    assert EncLeaf(sint, IntVal(-1)) == Some(EncVarint(1));
    TaggedBytes(sint, IntVal(-1), 8, EncVarint(1));
    var text := Field(3, Str, Required, 0, 0, 4, 0, None);
    assert EncLeaf(text, StrVal([104, 105, 0, 0])) == Some(EncVarint(2) + [104, 105]);
    TaggedBytes(text, StrVal([104, 105, 0, 0]), 26, EncVarint(2) + [104, 105]);
  }

  lemma {:induction false} HiIsHi()
    ensures CString([104, 105, 0, 0]) == [104, 105]
  {
    var hi: seq<byte>, i: seq<byte>, end: seq<byte> := [104, 105, 0, 0], [105, 0, 0], [0, 0];
    assert hi[1..] == i && i[1..] == end;
    assert CString(end) == [];
    assert CString(i) == [105] + CString(end);
  }

  /** A packed array, byte by byte. */
  lemma {:induction false} PackedBytes()
    ensures EncField(Field(4, UVarint, Repeated, 4, -4, 4, 3, None), Rep(2, [IntVal(3), IntVal(5), IntVal(0)])) ==
            Some([34] + ([2] + [3, 5]))
  {
    var f, items := Field(4, UVarint, Repeated, 4, -4, 4, 3, None), [IntVal(3), IntVal(5), IntVal(0)];
    SmallVarint(3);
    SmallVarint(5);
    SmallVarint(2);
    SmallVarint(34);
    hide EncVarint;
    assert EncPacked(f, items, 2, 2) == Some([]);
    assert EncPacked(f, items, 1, 2) == Some([5] + []);
    assert [5] + [] == [5];
    assert EncPacked(f, items, 0, 2) == Some([3] + [5]);
    assert [3] + [5] == [3, 5];
  }

  /** Fields go out in the order of the descriptor, whatever their tags. */
  lemma {:induction false} OrderBytes(x: byte, y: byte)
    requires x <= 0x7F && y <= 0x7F
    ensures EncMsg([Field(5, UVarint, Required, 0, 0, 1, 0, None), Field(2, UVarint, Required, 0, 0, 1, 0, None)],
                   [Plain(IntVal(x)), Plain(IntVal(y))]) == Some([40, x] + [16, y])
  {
    var f, g := Field(5, UVarint, Required, 0, 0, 1, 0, None), Field(2, UVarint, Required, 0, 0, 1, 0, None);
    var fields, st: Msg := [f, g], [Plain(IntVal(x)), Plain(IntVal(y))];
    SmallVarint(x);
    SmallVarint(y);
    hide EncVarint;
    assert EncLeaf(f, IntVal(x)) == Some([x]) && EncLeaf(g, IntVal(y)) == Some([y]);
    TaggedBytes(f, IntVal(x), 40, [x]);
    TaggedBytes(g, IntVal(y), 16, [y]);
    hide EncTagged;
    assert SlotOf(fields, 0) == 0 && SlotOf(fields, 1) == 1;
    assert EncField(g, st[1]) == Some([16] + [y]) && [16] + [y] == [16, y];
    assert EncFrom(fields, st, 2) == Some([]);
    assert [16, y] + [] == [16, y];
    assert EncFrom(fields, st, 1) == Some([16, y]);
    assert [40] + [x] == [40, x];
  }

  /** Each wire type is skipped by its own width. */
  lemma {:induction false} KnownSkips(rest: seq<byte>)
    ensures Skip(0, [0xAC, 2] + rest) == Good((), rest)
    ensures Skip(1, [1, 2, 3, 4, 5, 6, 7, 8] + rest) == Good((), rest)
    ensures Skip(2, [2, 104, 105] + rest) == Good((), rest)
    ensures Skip(5, [1, 2, 3, 4] + rest) == Good((), rest)
  {
    var g: seq<byte>, w8: seq<byte>, s: seq<byte>, w4: seq<byte> :=
      [0xAC, 2], [1, 2, 3, 4, 5, 6, 7, 8], [2, 104, 105], [1, 2, 3, 4];
    assert (g + rest)[1..][0] == 2 && VarintLen((g + rest)[1..]) == Some(1);
    assert (g + rest)[2..] == rest && (w8 + rest)[8..] == rest && (w4 + rest)[4..] == rest;
    assert Dec32(s + rest) == Good(2, (s + rest)[1..]);
    assert (s + rest)[1..][2..] == rest;
  }

  // ----- the zero test of a value

  /** A scalar, string or byte field is taken for zero exactly if it shows what zeroed memory shows;
      byte fields of a fixed length only if that length is 0. */
  lemma {:induction false} ZeroTestExact(f: Field, v: Val)
    requires WfField(f) && !f.ltype.Submsg? && OkLeaf(f, v)
    ensures ProtoZeroVal(f, v) <==> if f.ltype.FixedBytes? then f.dataSize == 0 else SameVal(f, v, ZeroVal(f))
  {
    if f.ltype.Str? {
      assert CString(Zeros(f.dataSize)) == [];
      assert v.text != [];
      assert CString(v.text) == [] <==> v.text[0] == 0;
    } else if f.ltype.Bytes? {
      var z := ZeroVal(f);
      assert z.buf[..0] == [];
      if v.size == 0 {
        assert v.buf[..0] == [];
      }
    }
  }

  // ----- what the encoder refuses

  /** A count beyond the array and a size beyond the buffer are refused. */
  lemma {:induction false} OverfullRefused(f: Field, s: Slot)
    requires ShapeSlot(f, s) && WfLeaf(f)
    ensures s.Rep? && s.count > f.arraySize ==> EncField(f, s) == None
    ensures s.Plain? && f.htype.Required? && f.ltype.Bytes? && s.v.BytesVal? && s.v.size + PB_SIZE_BYTES > f.dataSize ==> EncField(f, s) == None
  {
    hide EncPacked, EncRepeated, EncVarint;
    if s.Plain? && f.ltype.Bytes? && s.v.BytesVal? && s.v.size + PB_SIZE_BYTES > f.dataSize {
      assert EncLeaf(f, s.v) == None;
      assert EncTagged(f, s.v) == None;
    }
  }
}
