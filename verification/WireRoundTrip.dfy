/** What packing and unpacking do to each other, for every accepted layout and every value. */
module WireRoundTrip {
  import opened Common
  import opened Bits
  import opened LittleEndian
  import opened WireLayout
  import opened WireCodec
  import WireEnum

  /** `w` bits hold a value of type `ty`. */
  predicate Holds(ty: Ty, w: nat) {
    w >= 1 && (if w <= 8 then PackedLen(ty) == 1 else 8 * PackedLen(ty) == w) && (ty.Struct? ==> ty.meta.widthBits <= w)
  }

  /** A number is not changed by being cut to `w` bits. */
  predicate FitsIn(n: int, w: nat) {
    w >= 8 || 0 <= n < Pow2(w)
  }

  /** What is left of a number in `w` bits. */
  function Reduced(n: int, w: nat): int {
    if w >= 8 then n else n % Pow2(w)
  }

  /** The number that an enum variant is written as. */
  function VariantValue(decls: seq<WireEnum.VariantDecl>, v: WireEnum.Variant): int
    requires v.Named? ==> v.name < |decls|
  {
    match v
    case Named(i) => WireEnum.Written(decls, i)
    case Other(value) => value
  }

  /** A value in `w` bits is not damaged: numbers and bytes fit their bits, what is left of an enum's number still means
      the variant on its declaration, skipped fields of structs hold their default. */
  predicate Survives(ty: Ty, v: Value, w: nat)
    requires WellFormed(ty) && HasType(ty, v)
    decreases ty
  {
    match ty
    case Bool => true
    case U8 => FitsIn(v.n, w)
    case UInt(_) => FitsIn(v.n, w)
    case SInt(_) => FitsIn(v.n, w)
    case ByteArray(len) => len == 1 ==> FitsIn(v.bytes[0] as int, w)
    case Enum(_, _, decls) =>
      (v.variant.Named? ==> v.variant.name < |decls|)
      && WireEnum.Keeps(decls, v.variant, Reduced(VariantValue(decls, v.variant), w))
    case Struct(meta) => FieldsSurvive(Packet(meta, v.fields), |meta.fields|)
  }

  predicate FieldSurvives(p: TypedPacket, k: nat)
    requires k < |p.meta.fields|
    decreases p.meta, 0
  {
    if p.meta.fields[k].skip then p.vals[k] == p.meta.fields[k].fallback
    else Survives(p.meta.fields[k].ty, p.vals[k], p.meta.fields[k].Bits())
  }

  /** The first `n` fields survive. */
  predicate FieldsSurvive(p: TypedPacket, n: nat)
    requires n <= |p.meta.fields|
    decreases p.meta, 1, n
  {
    n == 0 || (FieldsSurvive(p, n - 1) && FieldSurvives(p, n - 1))
  }

  /** The one byte of a small integer. */
  lemma {:induction false} OneByteIs(n: int, signed: bool) returns (b: bv8)
    requires InRange(n, 1, signed)
    ensures ToBytes(n, 1, signed) == [b] && b as int == if n < 0 then n + 256 else n
  {
    assert Pow256(1) == 256 * Pow256(0) == 256;
    var m := if n < 0 then n + 256 else n;
    b := LowByte(m);
    assert ToLe(m, 1) == [b] + ToLe(m / 256, 0);
  }

  lemma {:induction false} SameRemainder(n: int, w: nat)
    requires 1 <= w < 8
    ensures (n + 256) % Pow2(w) == n % Pow2(w)
  {
  }

  /** Cutting an encoded integer reduces it. */
  lemma {:induction false} CutReduces(n: int, k: nat, signed: bool, w: nat)
    requires InRange(n, k, signed) && w >= 1 && (if w <= 8 then k == 1 else 8 * k == w)
    ensures FromBytes(Cut(ToBytes(n, k, signed), w), signed) == Reduced(n, w)
  {
    if w >= 8 {
      BytesRoundTrip(n, k, signed);
    } else {
      var b := OneByteIs(n, signed);
      CutByteIs(b, w, signed);
      LowBitsAreRemainder(b, w);
      SameRemainder(n, w);
    }
  }

  lemma {:induction false} CutByteIs(b: bv8, w: nat, signed: bool)
    requires 1 <= w < 8
    ensures FromBytes([b & LowMask(w)], signed) == (b & LowMask(w)) as int
  {
    LowBitsAreRemainder(b, w);
    assert Pow256(1) == 256 * Pow256(0) == 256;
    assert FromLe([b & LowMask(w)]) == (b & LowMask(w)) as int + 256 * FromLe([]);
  }

  /** An integer survives the cut exactly if it fits. */
  lemma {:induction false} ReducedIsSameIff(n: int, w: nat)
    requires w >= 1
    ensures Reduced(n, w) == n <==> FitsIn(n, w)
  {
  }

  lemma {:induction false} LeafRoundTripIff(ty: Ty, v: Value, w: nat)
    requires WellFormed(ty) && !ty.Struct? && HasType(ty, v) && Holds(ty, w)
    ensures Decode(ty, Cut(FieldBytes(ty, v), w)) == Ok(v) <==> Survives(ty, v, w)
  {
    var raw := Cut(FieldBytes(ty, v), w);
    assert raw[..|raw|] == raw;
    match ty
    case U8 => CutReduces(v.n, 1, false, w); ReducedIsSameIff(v.n, w);
    case Bool => BoolSurvives(v.b, w);
    case UInt(k) => CutReduces(v.n, k, false, w); ReducedIsSameIff(v.n, w);
    case SInt(k) => CutReduces(v.n, k, true, w); ReducedIsSameIff(v.n, w);
    case ByteArray(len) => if len == 1 { ByteFitsIff(v.bytes, w); }
    case Enum(k, signed, decls) =>
      WireEnum.EncodedIs(decls, v.variant);
      CutReduces(VariantValue(decls, v.variant), k, signed, w);
      WireEnum.DecodesIff(decls, v.variant, Reduced(VariantValue(decls, v.variant), w));
  }

  lemma {:induction false} ByteFitsIff(bs: seq<bv8>, w: nat)
    requires |bs| == 1 && 1 <= w
    ensures Cut(bs, w) == bs <==> FitsIn(bs[0] as int, w)
  {
    if w < 8 {
      LowBitsAreRemainder(bs[0], w);
      ReducedIsSameIff(bs[0] as int, w);
    }
  }

  /** An enum field whose variant's number fits it behaves as the enum does on its own. */
  lemma {:induction false} EnumFieldSurvivesIff(ty: Ty, v: Value, w: nat)
    requires ty.Enum? && WellFormed(ty) && HasType(ty, v) && Holds(ty, w)
    ensures v.variant.Named? ==> v.variant.name < |ty.decls|
    ensures FitsIn(VariantValue(ty.decls, v.variant), w) ==>
      (Survives(ty, v, w) <==> WireEnum.Keeps(ty.decls, v.variant, VariantValue(ty.decls, v.variant)))
  {
    WireEnum.EncodedIs(ty.decls, v.variant);
    ReducedIsSameIff(VariantValue(ty.decls, v.variant), w);
  }

  /** An enum with explicit discriminants, none listed twice, in a field its numbers fit: every named variant reads back
      as itself. */
  lemma {:induction false} ExplicitEnumFieldRoundTrips(ty: Ty, i: nat, w: nat)
    requires ty.Enum? && WellFormed(ty) && Holds(ty, w) && HasType(ty, VVariant(WireEnum.Named(i)))
    requires WireEnum.ListedOnce(ty.decls) && WireEnum.AllExplicit(ty.decls)
    requires i < |ty.decls| && FitsIn(WireEnum.Written(ty.decls, i), w)
    ensures Decode(ty, Cut(FieldBytes(ty, VVariant(WireEnum.Named(i))), w)) == Ok(VVariant(WireEnum.Named(i)))
  {
    var v := VVariant(WireEnum.Named(i));
    WireEnum.EncodedIs(ty.decls, v.variant);
    WireEnum.ExplicitVariantsRoundTrip(ty.decls, i);
    EnumFieldSurvivesIff(ty, v, w);
    LeafRoundTripIff(ty, v, w);
  }

  /** A catch-all value in a field it fits reads back as itself exactly if no variant lists it. */
  lemma {:induction false} CatchAllFieldRoundTripsIff(ty: Ty, value: int, w: nat)
    requires ty.Enum? && WellFormed(ty) && Holds(ty, w) && HasType(ty, VVariant(WireEnum.Other(value)))
      && FitsIn(value, w)
    ensures Decode(ty, Cut(FieldBytes(ty, VVariant(WireEnum.Other(value))), w)) == Ok(VVariant(WireEnum.Other(value)))
      <==> WireEnum.Unlisted(ty.decls, value)
  {
    var v := VVariant(WireEnum.Other(value));
    WireEnum.EncodedIs(ty.decls, v.variant);
    EnumFieldSurvivesIff(ty, v, w);
    LeafRoundTripIff(ty, v, w);
  }

  lemma {:induction false} BoolSurvives(b: bool, w: nat)
    requires w >= 1
    ensures (Cut([if b then 1 else 0], w)[0] > 0) == b
  {
  }

  /** A struct clears every bit beyond its width. */
  lemma {:induction false} StructFitsItsWidth(p: TypedPacket, w: nat)
    requires Holds(Struct(p.meta), w)
    ensures Cut(Encode(Struct(p.meta), VStruct(p.vals)), w) == WriteFields(p, |p.meta.fields|)
  {
    var buf := WriteFields(p, |p.meta.fields|);
    forall n | 0 <= n < 8 * |buf|
      ensures BitAt(Cut(buf, w), n) == BitAt(buf, n)
    {
      CutBit(buf, w, n);
      if n >= w {
        forall k | 0 <= k < |p.meta.fields|
          ensures !Owns(p, k, n)
        {
          assert LaidOut(p.meta);
        }
        UnownedBitsAreClear(p, |p.meta.fields|, n);
      }
    }
    SameBuffer(Cut(buf, w), buf);
  }

  /** A value of any type, written into `w` bits among others, reads back as itself exactly when it
      survives in them. */
  lemma {:induction false} RoundTripIff(ty: Ty, v: Value, w: nat)
    requires WellFormed(ty) && HasType(ty, v) && Holds(ty, w)
    ensures Decode(ty, Cut(FieldBytes(ty, v), w)) == Ok(v) <==> Survives(ty, v, w)
    decreases ty
  {
    if ty.Struct? {
      var p := Packet(ty.meta, v.fields);
      StructFitsItsWidth(p, w);
      StructRoundTripIff(p);
      assert v == VStruct(p.vals);
    } else {
      LeafRoundTripIff(ty, v, w);
    }
  }

  /** Unpacking a packed struct gives the struct back exactly when each of its fields survives. */
  lemma {:induction false} StructRoundTripIff(p: TypedPacket)
    ensures Decode(Struct(p.meta), Encode(Struct(p.meta), VStruct(p.vals))) == Ok(VStruct(p.vals))
      <==> FieldsSurvive(p, |p.meta.fields|)
    decreases p.meta, |p.meta.fields| + 1
  {
    var buf, n := WriteFields(p, |p.meta.fields|), |p.meta.fields|;
    assert buf[..|buf|] == buf && p.vals[..n] == p.vals;
    FieldsRoundTripIff(p, n);
  }

  lemma {:induction false} SnocIff<T>(a: seq<T>, x: T, b: seq<T>, y: T)
    ensures a + [x] == b + [y] <==> a == b && x == y
  {
    if a + [x] == b + [y] {
      assert (a + [x])[..|a|] == a && (b + [y])[..|a|] == b;
      assert (a + [x])[|a|] == x && (b + [y])[|a|] == y;
    }
  }

  lemma {:induction false} FieldsRoundTripIff(p: TypedPacket, n: nat)
    requires n <= |p.meta.fields|
    ensures ReadFields(p.meta, WriteFields(p, |p.meta.fields|), n) == Ok(p.vals[..n])
      <==> FieldsSurvive(p, n)
    decreases p.meta, n
  {
    if n > 0 {
      var k := n - 1;
      FieldsRoundTripIff(p, k);
      NextFieldRoundTripIff(p, k, n);
    }
  }

  lemma {:induction false} NextFieldRoundTripIff(p: TypedPacket, k: nat, n: nat)
    requires n == k + 1 <= |p.meta.fields|
    ensures ReadFields(p.meta, WriteFields(p, |p.meta.fields|), n) == Ok(p.vals[..n])
      <==> (ReadFields(p.meta, WriteFields(p, |p.meta.fields|), k) == Ok(p.vals[..k]) && FieldSurvives(p, k))
    decreases p.meta, n, 0
  {
    var f, buf := p.meta.fields[k], WriteFields(p, |p.meta.fields|);
    var before := ReadFields(p.meta, buf, k);
    assert p.vals[..n] == p.vals[..k] + [p.vals[k]];
    if before.Ok? && f.skip {
      SnocIff(before.value, f.fallback, p.vals[..k], p.vals[k]);
    } else if before.Ok? {
      FieldReadIff(p, k);
      var r := Decode(f.ty, ReadField(buf, f));
      if r.Ok? {
        SnocIff(before.value, r.value, p.vals[..k], p.vals[k]);
      }
    }
  }

  /** A field reads back as itself exactly when it survives in its bits. */
  lemma {:induction false} FieldReadIff(p: TypedPacket, k: nat)
    requires Present(p, k)
    ensures Writable(Len(p), p.meta.fields[k], |FieldOf(p, k)|)
    ensures Decode(p.meta.fields[k].ty, ReadField(WriteFields(p, |p.meta.fields|), p.meta.fields[k])) == Ok(p.vals[k])
      <==> Survives(p.meta.fields[k].ty, p.vals[k], p.meta.fields[k].Bits())
    decreases p.meta, 0
  {
    FieldsAreIndependent(p, k);
    assert Sized(p.meta.fields[k]);
    RoundTripIff(p.meta.fields[k].ty, p.vals[k], p.meta.fields[k].Bits());
  }

  // --- Packing what was unpacked

  /** Numbers and bytes: every bit pattern is a value. */
  predicate Plain(ty: Ty) {
    ty.U8? || ty.UInt? || ty.SInt? || ty.ByteArray?
  }

  predicate PlainFields(meta: StructMeta) {
    WellFormed(Struct(meta)) && forall k :: 0 <= k < |meta.fields| && !meta.fields[k].skip ==> Plain(meta.fields[k].ty)
  }

  lemma {:induction false} PlainLeaf(ty: Ty, raw: seq<bv8>)
    requires Plain(ty) && |raw| == PackedLen(ty)
    ensures Decode(ty, raw).Ok? && HasType(ty, Decode(ty, raw).value)
    ensures FieldBytes(ty, Decode(ty, raw).value) == raw
  {
    assert raw[..|raw|] == raw;
    IntegerRoundTrip(raw, ty.SInt?);
  }

  lemma {:induction false} PlainField(meta: StructMeta, buf: seq<bv8>, k: nat)
    requires PlainFields(meta) && |buf| == DivCeil8(meta.widthBits) && k < |meta.fields| && !meta.fields[k].skip
    ensures Writable(|buf|, meta.fields[k], PackedLen(meta.fields[k].ty))
    ensures |ReadField(buf, meta.fields[k])| == PackedLen(meta.fields[k].ty)
    ensures meta.fields[k].bitEnd <= 8 * |buf|
  {
    var f := meta.fields[k];
    SoundInBuffer(f, meta.widthBits);
    assert Sized(f);
    ReadLength(buf, f, seq(PackedLen(f.ty), _ => 0));
  }

  lemma {:induction false} PlainFieldsDecode(meta: StructMeta, buf: seq<bv8>, n: nat)
    requires PlainFields(meta) && |buf| == DivCeil8(meta.widthBits) && n <= |meta.fields|
    ensures ReadFields(meta, buf, n).Ok?
    ensures forall k :: 0 <= k < n && !meta.fields[k].skip ==>
      Sound(meta.fields[k], 8 * |buf|) && meta.fields[k].Bits() >= 1
      && HasType(meta.fields[k].ty, ReadFields(meta, buf, n).value[k])
      && FieldBytes(meta.fields[k].ty, ReadFields(meta, buf, n).value[k]) == ReadField(buf, meta.fields[k])
  {
    if n > 0 {
      PlainFieldsDecode(meta, buf, n - 1);
      var f := meta.fields[n - 1];
      if !f.skip {
        PlainField(meta, buf, n - 1);
        PlainLeaf(f.ty, ReadField(buf, f));
      }
    }
  }

  lemma {:induction false} ReadBitOf(buf: seq<bv8>, f: FieldMeta, n: nat)
    requires Sound(f, 8 * |buf|) && f.bitStart <= n < f.bitEnd && n - f.bitStart < 8 * |ReadField(buf, f)|
    ensures n < 8 * |buf| && BitAt(ReadField(buf, f), n - f.bitStart) == BitAt(buf, n)
  {
    ReadFieldBit(buf, f, n - f.bitStart);
  }

  /** A bit of a field comes back as it was. */
  lemma {:induction false} RepackKeepsBit(buf: seq<bv8>, p: TypedPacket, k: nat, n: nat)
    requires |buf| == Len(p) && n < 8 * |buf| && Owns(p, k, n)
    requires Sound(p.meta.fields[k], 8 * |buf|) && p.meta.fields[k].Bits() >= 1
    requires FieldOf(p, k) == ReadField(buf, p.meta.fields[k])
    ensures BitAt(WriteFields(p, |p.meta.fields|), n) == BitAt(buf, n)
  {
    OwnedBitsAreKept(p, |p.meta.fields|, k, n);
    ReadBitOf(buf, p.meta.fields[k], n);
  }

  /** Any buffer decodes to a struct of plain fields, and packing that struct again gives the buffer
      back with exactly the bits cleared that belong to no field. */
  lemma {:induction false} RepackClearsPadding(meta: StructMeta, buf: seq<bv8>, n: nat)
    requires PlainFields(meta) && |buf| == DivCeil8(meta.widthBits) && n < 8 * |buf|
    ensures Decode(Struct(meta), buf).Ok? && HasType(Struct(meta), Decode(Struct(meta), buf).value)
    ensures BitAt(Encode(Struct(meta), Decode(Struct(meta), buf).value), n)
      == (BitAt(buf, n) && exists k: nat :: Owns(Packet(meta, Decode(Struct(meta), buf).value.fields), k, n))
  {
    PlainFieldsDecode(meta, buf, |meta.fields|);
    assert buf[..|buf|] == buf;
    var p := Packet(meta, ReadFields(meta, buf, |meta.fields|).value);
    assert Decode(Struct(meta), buf) == Ok(VStruct(p.vals));
    if k: nat :| Owns(p, k, n) {
      RepackKeepsBit(buf, p, k, n);
    } else {
      UnownedBitsAreClear(p, |meta.fields|, n);
    }
  }

  /** `2^w`. */
  function Pow2(w: nat): (p: nat)
    requires w <= 7
    ensures p >= 1
  {
    match w
    case 0 => 1
    case 1 => 2
    case 2 => 4
    case 3 => 8
    case 4 => 16
    case 5 => 32
    case 6 => 64
    case _ => 128
  }

  lemma {:induction false} SplitByte(b: bv8)
    ensures b as int == (b & 0x01) as int + 2 * ((b >> 1) as int) && (b & 0x01) as int < 2
    ensures b as int == (b & 0x03) as int + 4 * ((b >> 2) as int) && (b & 0x03) as int < 4
    ensures b as int == (b & 0x07) as int + 8 * ((b >> 3) as int) && (b & 0x07) as int < 8
    ensures b as int == (b & 0x0f) as int + 16 * ((b >> 4) as int) && (b & 0x0f) as int < 16
    ensures b as int == (b & 0x1f) as int + 32 * ((b >> 5) as int) && (b & 0x1f) as int < 32
    ensures b as int == (b & 0x3f) as int + 64 * ((b >> 6) as int) && (b & 0x3f) as int < 64
    ensures b as int == (b & 0x7f) as int + 128 * ((b >> 7) as int) && (b & 0x7f) as int < 128
  {
  }

  lemma {:induction false} RemaindersTo8(b: bv8)
    ensures (b & 0x01) as int == b as int % 2 && (b & 0x03) as int == b as int % 4 && (b & 0x07) as int == b as int % 8
  {
    SplitByte(b);
  }

  lemma {:induction false} RemaindersTo128(b: bv8)
    ensures (b & 0x0f) as int == b as int % 16 && (b & 0x1f) as int == b as int % 32
    ensures (b & 0x3f) as int == b as int % 64 && (b & 0x7f) as int == b as int % 128
  {
    SplitByte(b);
  }

  lemma {:induction false} LowBitsAreRemainder(b: bv8, w: nat)
    requires 1 <= w < 8
    ensures (b & LowMask(w)) as int == b as int % Pow2(w)
  {
    RemaindersTo8(b);
    RemaindersTo128(b);
  }

  /** An over-wide `u8` is reduced modulo two to its width. */
  lemma {:induction false} OverwideIsReduced(n: u8, w: nat)
    requires 1 <= w < 8
    ensures Decode(U8, Cut(FieldBytes(U8, VInt(n)), w)) == Ok(VInt(n % Pow2(w)))
  {
    var enc := FieldBytes(U8, VInt(n));
    var raw := Cut(enc, w);
    assert raw[..1] == raw && Pow256(1) == 256 * Pow256(0) == 256;
    CutReduces(n, 1, false, w);
  }

  // --- From declarations to codecs

  /** A declared field is as wide as its type demands. */
  predicate DeclSized(d: FieldDecl) {
    d.skip || (WidthOf(d).Some? && WellFormed(d.ty) && Holds(d.ty, WidthOf(d).value)
               && (d.ty.U8? || d.ty.Bool? ==> WidthOf(d).value <= 8))
  }

  /** Every layout the parser accepts, over fields as wide as their types, has a working codec. */
  lemma {:induction false} AcceptedIsWellFormed(decls: seq<FieldDecl>)
    requires AllFit(decls, |decls|) && forall i :: 0 <= i < |decls| ==> DeclSized(decls[i])
    ensures WellFormed(Struct(StructMeta(Taken(decls, |decls|), Places(decls, |decls|))))
  {
    AcceptedIsLaidOut(decls);
    forall k | 0 <= k < |decls| && !decls[k].skip
      ensures Sized(Places(decls, |decls|)[k]) && WellFormed(Places(decls, |decls|)[k].ty)
      ensures Places(decls, |decls|)[k].skip == decls[k].skip
    {
      PlacesAt(decls, |decls|, k);
      assert DeclSized(decls[k]);
    }
    forall k | 0 <= k < |decls|
      ensures Places(decls, |decls|)[k].skip == decls[k].skip
    {
      PlacesAt(decls, |decls|, k);
    }
  }
}
