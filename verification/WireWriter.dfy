/** The emitted writer, working in place on a buffer. */
module WireWriter {
  import opened Bits
  import opened WireLayout
  import opened WireCodec

  /** `s` with the bytes from `at` on replaced by `bs`. */
  function Splice(s: seq<bv8>, at: nat, bs: seq<bv8>): (r: seq<bv8>)
    requires at + |bs| <= |s|
    ensures |r| == |s|
  {
    s[..at] + bs + s[at + |bs|..]
  }

  /** Copy bytes into the buffer. */
  method CopyInto(bs: seq<bv8>, buf: array<bv8>, at: nat)
    requires at + |bs| <= buf.Length
    modifies buf
    ensures buf[..] == Splice(old(buf[..]), at, bs)
  {
    for i := 0 to |bs|
      invariant forall j :: 0 <= j < buf.Length ==> buf[j] == if at <= j < at + i then bs[j - at] else old(buf[j])
    {
      buf[at + i] := bs[i];
    }
  }

  /** Pack a value at position `at` of the buffer; the rest of the buffer is left alone. */
  method PackToSlice(ty: Ty, v: Value, buf: array<bv8>, at: nat)
    requires WellFormed(ty) && HasType(ty, v) && at + PackedLen(ty) <= buf.Length
    modifies buf
    ensures buf[..] == Splice(old(buf[..]), at, Encode(ty, v))
    decreases ty, 1
  {
    if ty.Struct? {
      PackStruct(Packet(ty.meta, v.fields), buf, at);
    } else {
      CopyInto(Encode(ty, v), buf, at);
    }
  }

  /** Zero the struct's bytes, then merge the fields in one after the other. */
  method PackStruct(p: TypedPacket, buf: array<bv8>, at: nat)
    requires at + Len(p) <= buf.Length
    modifies buf
    ensures buf[..] == Splice(old(buf[..]), at, WriteFields(p, |p.meta.fields|))
    decreases p.meta, 1
  {
    ghost var before := buf[..];
    CopyInto(seq(Len(p), _ => 0), buf, at);
    for k := 0 to |p.meta.fields|
      invariant buf[..] == Splice(before, at, WriteFields(p, k))
    {
      if !p.meta.fields[k].skip {
        PackField(p, k, buf, at, before);
      }
    }
  }

  lemma {:induction false} SpliceTwice(s: seq<bv8>, at: nat, bs: seq<bv8>, from: nat, cs: seq<bv8>)
    requires at + |bs| <= |s| && from + |cs| <= |bs|
    ensures Splice(Splice(s, at, bs), at + from, cs) == Splice(s, at, Splice(bs, from, cs))
  {
  }

  /** The single byte of a narrow field, packed on its own; `u8` and `bool` are cast directly. */
  method PackByte(p: TypedPacket, k: nat) returns (res: bv8)
    requires Present(p, k) && |FieldOf(p, k)| == 1
    ensures res == FieldOf(p, k)[0]
    decreases p.meta, 0, 0
  {
    var ty, v := p.meta.fields[k].ty, p.vals[k];
    assert WellFormed(ty) && HasType(ty, v);
    if ty.Bool? {
      res := if v.b then 1 else 0;
    } else {
      var fieldBuf := new bv8[1];
      PackToSlice(ty, v, fieldBuf, 0);
      assert fieldBuf[..][0] == Encode(ty, v)[0];
      res := fieldBuf[0];
    }
  }

  lemma {:induction false} SpliceByte(s: seq<bv8>, at: nat, bs: seq<bv8>, i: nat, b: bv8)
    requires at + |bs| <= |s| && i < |bs|
    ensures Splice(s, at, bs)[at + i] == bs[i]
    ensures Splice(s, at, bs)[at + i := b] == Splice(s, at, bs[i := b])
  {
  }

  /** A field is either one byte to merge or whole bytes to store. */
  lemma {:induction false} FieldCases(p: TypedPacket, k: nat)
    requires Present(p, k)
    ensures Writable(Len(p), p.meta.fields[k], |FieldOf(p, k)|)
    ensures p.meta.fields[k].Bytes() == 1 ==> |FieldOf(p, k)| == 1 && p.meta.fields[k].byteStart < Len(p)
    ensures p.meta.fields[k].Bytes() != 1 ==>
      !p.meta.fields[k].ty.Bool? && |FieldOf(p, k)| == p.meta.fields[k].Bytes()
    ensures p.meta.fields[k].Bytes() != 1 ==> p.meta.fields[k].byteStart < p.meta.fields[k].byteEnd <= Len(p)
  {
    WritableField(p, k);
    var f := p.meta.fields[k];
    assert Sized(f);
    WriterAndReaderAgreeIff(f, 8 * Len(p));
    if f.Bytes() == 1 {
      InOneByte(f, 8 * Len(p), f.bitStart);
    } else {
      InWholeBytes(f, 8 * Len(p), f.bitStart);
    }
  }

  lemma {:induction false} WriteIsUpdate(buf: seq<bv8>, f: FieldMeta, enc: seq<bv8>, b: bv8, res: bv8)
    requires Writable(|buf|, f, |enc|) && f.Bytes() == 1 && f.byteStart < |buf|
    requires enc == [res] && b == buf[f.byteStart]
    ensures WriteField(buf, f, enc) == buf[f.byteStart := b | ((res << f.bitOffset) & Mask(f.bitOffset, f.Bits()))]
  {
  }

  /** OR a narrow field into its byte. */
  method MergeByte(p: TypedPacket, k: nat, buf: array<bv8>, at: nat, ghost before: seq<bv8>)
    requires Present(p, k) && p.meta.fields[k].Bytes() == 1 && at + Len(p) <= buf.Length == |before|
    requires buf[..] == Splice(before, at, WriteFields(p, k))
    modifies buf
    ensures buf[..] == Splice(before, at, WriteFields(p, k + 1))
    decreases p.meta, 0, 1
  {
    var f := p.meta.fields[k];
    FieldCases(p, k);
    var res := PackByte(p, k);
    var b := buf[at + f.byteStart];
    assert b == WriteFields(p, k)[f.byteStart] by {
      SpliceByte(before, at, WriteFields(p, k), f.byteStart, 0);
    }
    var merged := b | ((res << f.bitOffset) & Mask(f.bitOffset, f.Bits()));
    assert WriteFields(p, k + 1) == WriteFields(p, k)[f.byteStart := merged] by {
      assert FieldOf(p, k) == [res];
      WriteIsUpdate(WriteFields(p, k), f, FieldOf(p, k), b, res);
    }
    SpliceByte(before, at, WriteFields(p, k), f.byteStart, merged);
    buf[at + f.byteStart] := merged;
  }

  /** Store a wide field over its bytes. */
  method StoreBytes(p: TypedPacket, k: nat, buf: array<bv8>, at: nat, ghost before: seq<bv8>)
    requires Present(p, k) && p.meta.fields[k].Bytes() != 1 && at + Len(p) <= buf.Length == |before|
    requires buf[..] == Splice(before, at, WriteFields(p, k))
    modifies buf
    ensures buf[..] == Splice(before, at, WriteFields(p, k + 1))
    decreases p.meta, 0, 1
  {
    var f, v := p.meta.fields[k], p.vals[k];
    FieldCases(p, k);
    assert WellFormed(f.ty) && HasType(f.ty, v);
    SpliceTwice(before, at, WriteFields(p, k), f.byteStart, FieldOf(p, k));
    assert Splice(WriteFields(p, k), f.byteStart, FieldOf(p, k)) == WriteFields(p, k + 1);
    PackToSlice(f.ty, v, buf, at + f.byteStart);
  }

  /** Merge one field into the buffer. */
  method PackField(p: TypedPacket, k: nat, buf: array<bv8>, at: nat, ghost before: seq<bv8>)
    requires Present(p, k) && at + Len(p) <= buf.Length == |before|
    requires buf[..] == Splice(before, at, WriteFields(p, k))
    modifies buf
    ensures buf[..] == Splice(before, at, WriteFields(p, k + 1))
    decreases p.meta, 0, 2
  {
    if p.meta.fields[k].Bytes() == 1 {
      MergeByte(p, k, buf, at, before);
    } else {
      StoreBytes(p, k, buf, at, before);
    }
  }
}
