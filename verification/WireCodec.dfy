/** The code the wire derive emits for a struct: a writer that ORs masked bits into a zeroed buffer
    and a reader that masks and shifts them out again, interpreted over any layout. */
module WireCodec {
  import opened Common
  import opened Bits
  import opened LittleEndian
  import opened WireLayout
  import WireEnum

  datatype WireError = ReadBufferTooShort | InvalidValue

  /** Packed length in bytes. */
  function PackedLen(ty: Ty): nat {
    match ty
    case U8 => 1
    case Bool => 1
    case UInt(bytes) => bytes
    case SInt(bytes) => bytes
    case ByteArray(len) => len
    case Enum(bytes, _, _) => bytes
    case Struct(meta) => DivCeil8(meta.widthBits)
  }

  /** The field is as wide as its type: a field of up to eight bits holds a one-byte type, a wider
      one exactly the bytes of its type. `u8` and `bool` masks only exist for one byte. */
  predicate Sized(f: FieldMeta) {
    && f.Bits() >= 1
    && (if f.Bits() <= 8 then PackedLen(f.ty) == 1 else 8 * PackedLen(f.ty) == f.Bits())
    && (f.ty.U8? || f.ty.Bool? ==> f.Bits() <= 8)
    && (f.ty.Struct? ==> f.ty.meta.widthBits <= f.Bits())
  }

  /** A type whose structs and enums, at every depth, are ones the derive accepts. */
  predicate WellFormed(ty: Ty)
    decreases ty
  {
    match ty
    case Struct(meta) =>
      && LaidOut(meta)
      && forall k :: 0 <= k < |meta.fields| && !meta.fields[k].skip ==>
         Sized(meta.fields[k]) && WellFormed(meta.fields[k].ty)
    case Enum(_, _, decls) => WireEnum.Accepted(decls)
    case _ => true
  }

  predicate HasType(ty: Ty, v: Value)
    decreases ty
  {
    match ty
    case U8 => v.VInt? && 0 <= v.n < 256
    case Bool => v.VBool?
    case UInt(bytes) => v.VInt? && InRange(v.n, bytes, false)
    case SInt(bytes) => v.VInt? && InRange(v.n, bytes, true)
    case ByteArray(len) => v.VBytes? && |v.bytes| == len
    case Enum(bytes, signed, decls) =>
      && v.VVariant?
      && var raw := WireEnum.Encode(WireEnum.MetaOf(decls), v.variant);
         raw.Some? && InRange(raw.value, bytes, signed)
    case Struct(meta) =>
      && v.VStruct? && |v.fields| == |meta.fields|
      && forall k :: 0 <= k < |meta.fields| && !meta.fields[k].skip ==> HasType(meta.fields[k].ty, v.fields[k])
  }

  /** A struct layout together with values for its fields. */
  datatype Packet = Packet(meta: StructMeta, vals: seq<Value>)

  type TypedPacket = p: Packet | WellFormed(Struct(p.meta)) && HasType(Struct(p.meta), VStruct(p.vals))
    witness Packet(StructMeta(0, []), [])

  // --- One field

  /** Put the encoded value of a field into the buffer. */
  function WriteField(buf: seq<bv8>, f: FieldMeta, enc: seq<bv8>): (out: seq<bv8>)
    requires Writable(|buf|, f, |enc|)
    ensures |out| == |buf|
  {
    if f.Bytes() == 1 then
      buf[f.byteStart := buf[f.byteStart] | ((enc[0] << f.bitOffset) & Mask(f.bitOffset, f.Bits()))]
    else
      buf[..f.byteStart] + enc + buf[f.byteEnd..]
  }

  /** Take the encoded value of a field out of the buffer. */
  function ReadField(buf: seq<bv8>, f: FieldMeta): (raw: seq<bv8>)
    requires Sound(f, 8 * |buf|) && f.Bits() >= 1
  {
    if f.Bits() <= 8 then [(buf[f.byteStart] & Mask(f.bitOffset, f.Bits())) >> f.bitOffset]
    else buf[f.byteStart..f.byteEnd]
  }

  /** Bit `n` of a buffer. */
  predicate BitAt(buf: seq<bv8>, n: nat)
    requires n < 8 * |buf|
  {
    Bit(buf[n / 8], n % 8)
  }

  /** A one-byte field, seen from bit `n`. */
  lemma {:induction false} InOneByte(f: FieldMeta, widthBits: nat, n: nat)
    requires Sound(f, widthBits) && f.Bits() >= 1 && f.Bytes() == 1
    ensures f.bitOffset + f.Bits() <= 8 && f.bitStart == 8 * f.byteStart + f.bitOffset
    ensures f.bitStart <= n < f.bitEnd <==> n / 8 == f.byteStart && f.bitOffset <= n % 8 < f.bitOffset + f.Bits()
    ensures f.bitStart <= n < f.bitEnd ==> n - f.bitStart < 8 && n % 8 - f.bitOffset == n - f.bitStart
  {
  }

  /** A wider field, seen from bit `n`. */
  lemma {:induction false} InWholeBytes(f: FieldMeta, widthBits: nat, n: nat)
    requires Sound(f, widthBits) && f.Bits() >= 1 && f.Bytes() != 1
    ensures f.bitStart == 8 * f.byteStart && f.bitEnd == 8 * f.byteEnd && f.byteStart < f.byteEnd
    ensures f.bitStart <= n < f.bitEnd <==> f.byteStart <= n / 8 < f.byteEnd
    ensures f.bitStart <= n < f.bitEnd ==>
      (n - f.bitStart) / 8 == n / 8 - f.byteStart && (n - f.bitStart) % 8 == n % 8
  {
  }

  /** A field and its encoded value, `encLen` bytes long, suit a buffer of `len` bytes. */
  predicate Writable(len: nat, f: FieldMeta, encLen: nat) {
    Sound(f, 8 * len) && f.Bits() >= 1 && if f.Bits() <= 8 then encLen == 1 else 8 * encLen == f.Bits()
  }

  lemma {:induction false} WriteNarrowBit(buf: seq<bv8>, f: FieldMeta, enc: seq<bv8>, n: nat)
    requires Writable(|buf|, f, |enc|) && f.Bytes() == 1 && n < 8 * |buf| && |enc| == 1
    ensures BitAt(WriteField(buf, f, enc), n)
      == (BitAt(buf, n) || (f.bitStart <= n < f.bitEnd && Bit(enc[0], n - f.bitStart)))
  {
    InOneByte(f, 8 * |buf|, n);
    if n / 8 == f.byteStart {
      BitOfMerge(buf[n / 8], enc[0], f.bitOffset, f.Bits(), n % 8);
    }
  }

  lemma {:induction false} WriteWideBit(buf: seq<bv8>, f: FieldMeta, enc: seq<bv8>, n: nat)
    requires Writable(|buf|, f, |enc|) && f.Bytes() != 1 && n < 8 * |buf|
    ensures |enc| == f.Bytes() && f.Bits() == 8 * |enc|
    ensures BitAt(WriteField(buf, f, enc), n)
      == if f.bitStart <= n < f.bitEnd then BitAt(enc, n - f.bitStart) else BitAt(buf, n)
  {
    InWholeBytes(f, 8 * |buf|, n);
  }

  /** Writing a field sets its own bits, given that they were clear, and no other bit. */
  lemma {:induction false} WriteFieldBit(buf: seq<bv8>, f: FieldMeta, enc: seq<bv8>, n: nat)
    requires Writable(|buf|, f, |enc|) && n < 8 * |buf|
    requires f.bitStart <= n < f.bitEnd ==> !BitAt(buf, n)
    ensures f.bitStart <= n < f.bitEnd ==> n - f.bitStart < 8 * |enc|
    ensures BitAt(WriteField(buf, f, enc), n)
      == if f.bitStart <= n < f.bitEnd then BitAt(enc, n - f.bitStart) else BitAt(buf, n)
  {
    if f.Bytes() == 1 {
      WriterAndReaderAgreeIff(f, 8 * |buf|);
      WriteNarrowBit(buf, f, enc, n);
    } else {
      WriteWideBit(buf, f, enc, n);
    }
  }

  /** What is read are the field's bits, filled up with zeros. */
  lemma {:induction false} ReadFieldBit(buf: seq<bv8>, f: FieldMeta, i: nat)
    requires Sound(f, 8 * |buf|) && f.Bits() >= 1
    requires i < 8 * |ReadField(buf, f)|
    ensures BitAt(ReadField(buf, f), i) == (i < f.Bits() && BitAt(buf, f.bitStart + i))
  {
    var n := f.bitStart + i;
    WriterAndReaderAgreeIff(f, 8 * |buf|);
    if f.Bytes() == 1 {
      InOneByte(f, 8 * |buf|, n);
      BitOfExtract(buf[f.byteStart], f.bitOffset, f.Bits(), i);
    } else {
      InWholeBytes(f, 8 * |buf|, n);
    }
  }

  lemma {:induction false} SameBuffer(a: seq<bv8>, b: seq<bv8>)
    requires |a| == |b| && forall n :: 0 <= n < 8 * |a| ==> BitAt(a, n) == BitAt(b, n)
    ensures a == b
  {
    forall k | 0 <= k < |a|
      ensures a[k] == b[k]
    {
      forall i | 0 <= i < 8
        ensures Bit(a[k], i) == Bit(b[k], i)
      {
        assert BitAt(a, 8 * k + i) == BitAt(b, 8 * k + i);
      }
      SameBits(a[k], b[k]);
    }
  }

  // --- Whole values

  lemma {:induction false} SoundInBuffer(f: FieldMeta, widthBits: nat)
    requires Sound(f, widthBits)
    ensures Sound(f, 8 * DivCeil8(widthBits))
  {
  }

  /** The bytes of a value on its own. */
  function Encode(ty: Ty, v: Value): (bs: seq<bv8>)
    requires WellFormed(ty) && HasType(ty, v)
    ensures |bs| == PackedLen(ty)
    decreases ty, 1
  {
    match ty
    case U8 => ToLe(v.n, 1)
    case Bool => [if v.b then 0xff else 0x00]
    case UInt(bytes) => ToBytes(v.n, bytes, false)
    case SInt(bytes) => ToBytes(v.n, bytes, true)
    case ByteArray(len) => v.bytes
    case Enum(bytes, signed, decls) => ToBytes(WireEnum.Encode(WireEnum.MetaOf(decls), v.variant).value, bytes, signed)
    case Struct(meta) => WriteFields(Packet(meta, v.fields), |meta.fields|)
  }

  /** The bytes of a value as the struct writer sees them: a `bool` is cast to a number there. */
  function FieldBytes(ty: Ty, v: Value): (bs: seq<bv8>)
    requires WellFormed(ty) && HasType(ty, v)
    ensures |bs| == PackedLen(ty)
    decreases ty, 2
  {
    if ty.Bool? then [if v.b then 1 else 0] else Encode(ty, v)
  }

  /** Length in bytes of a packet. */
  function Len(p: TypedPacket): nat {
    DivCeil8(p.meta.widthBits)
  }

  predicate Present(p: TypedPacket, k: nat) {
    k < |p.meta.fields| && !p.meta.fields[k].skip
  }

  /** The encoded value of field `k`. */
  function FieldOf(p: TypedPacket, k: nat): seq<bv8>
    requires Present(p, k)
    decreases p.meta, 0
  {
    FieldBytes(p.meta.fields[k].ty, p.vals[k])
  }

  /** The writer's and the reader's demands on a field are met. */
  lemma {:induction false} WritableField(p: TypedPacket, k: nat)
    requires Present(p, k)
    ensures Writable(DivCeil8(p.meta.widthBits), p.meta.fields[k], PackedLen(p.meta.fields[k].ty))
    ensures p.meta.fields[k].bitEnd <= 8 * DivCeil8(p.meta.widthBits)
    ensures p.meta.fields[k].Bits() <= 8 * PackedLen(p.meta.fields[k].ty)
  {
    SoundInBuffer(p.meta.fields[k], p.meta.widthBits);
    assert Sized(p.meta.fields[k]);
  }

  /** The buffer after the first `n` fields have been written into a zeroed one. */
  function WriteFields(p: TypedPacket, n: nat): (buf: seq<bv8>)
    requires n <= |p.meta.fields|
    ensures |buf| == Len(p)
    decreases p.meta, 1, n
  {
    if n == 0 then seq(Len(p), _ => 0)
    else if p.meta.fields[n - 1].skip then WriteFields(p, n - 1)
    else
      WritableField(p, n - 1);
      WriteField(WriteFields(p, n - 1), p.meta.fields[n - 1], FieldOf(p, n - 1))
  }

  function Decode(ty: Ty, raw: seq<bv8>): Result<Value, WireError>
    requires WellFormed(ty)
    decreases ty, 1
  {
    if |raw| < PackedLen(ty) then Err(ReadBufferTooShort)
    else match ty
      case U8 => Ok(VInt(FromLe(raw[..1])))
      case Bool => Ok(VBool(raw[0] > 0))
      case UInt(bytes) => Ok(VInt(FromBytes(raw[..bytes], false)))
      case SInt(bytes) => Ok(VInt(FromBytes(raw[..bytes], true)))
      case ByteArray(len) => Ok(VBytes(raw[..len]))
      case Enum(bytes, signed, decls) =>
        (match WireEnum.Decode(WireEnum.MetaOf(decls), FromBytes(raw[..bytes], signed))
         case Some(variant) => Ok(VVariant(variant))
         case None => Err(InvalidValue))
      case Struct(meta) =>
        (match ReadFields(meta, raw[..PackedLen(ty)], |meta.fields|)
         case Ok(vals) => Ok(VStruct(vals))
         case Err(e) => Err(e))
  }

  /** The first `n` fields of a struct, read in order; the first error wins. */
  function ReadFields(meta: StructMeta, buf: seq<bv8>, n: nat): (r: Result<seq<Value>, WireError>)
    requires WellFormed(Struct(meta)) && |buf| == DivCeil8(meta.widthBits) && n <= |meta.fields|
    ensures r.Ok? ==> |r.value| == n
    decreases meta, n
  {
    if n == 0 then Ok([])
    else
      var f := meta.fields[n - 1];
      match ReadFields(meta, buf, n - 1)
      case Err(e) => Err(e)
      case Ok(vals) =>
        if f.skip then Ok(vals + [f.fallback])
        else
          SoundInBuffer(f, meta.widthBits);
          match Decode(f.ty, ReadField(buf, f))
          case Err(e) => Err(e)
          case Ok(v) => Ok(vals + [v])
  }

  /** What has no width of its own: types whose width is that of their bytes, and types that need an attribute. */
  lemma {:induction false} DefaultWidthIs(ty: Ty)
    ensures DefaultWidth(ty)
      == if ty.U8? || ty.UInt? || ty.SInt? then Some(8 * PackedLen(ty)) else None
  {
  }

  /** A flag is all ones on its own and a single one in a struct; any byte but zero is read as true. */
  lemma {:induction false} FlagsAre(b: bool, raw: seq<bv8>)
    ensures Encode(Bool, VBool(b)) == [if b then 0xff else 0x00]
    ensures FieldBytes(Bool, VBool(b)) == [if b then 0x01 else 0x00]
    ensures |raw| >= 1 ==> Decode(Bool, raw) == Ok(VBool(raw[0] != 0x00))
  {
  }

  /** Exactly buffers that are shorter than the type are too short. */
  lemma {:induction false} TooShortIff(ty: Ty, raw: seq<bv8>)
    requires WellFormed(ty)
    ensures Decode(ty, raw) == Err(ReadBufferTooShort) <==> |raw| < PackedLen(ty)
    decreases ty
  {
    if ty.Struct? && |raw| >= PackedLen(ty) {
      FieldsAreLongEnough(ty.meta, raw[..PackedLen(ty)], |ty.meta.fields|);
    }
  }

  lemma {:induction false} FieldsAreLongEnough(meta: StructMeta, buf: seq<bv8>, n: nat)
    requires WellFormed(Struct(meta)) && |buf| == DivCeil8(meta.widthBits) && n <= |meta.fields|
    ensures ReadFields(meta, buf, n) != Err(ReadBufferTooShort)
    decreases meta, n
  {
    if n > 0 {
      var k := n - 1;
      var f := meta.fields[k];
      FieldsAreLongEnough(meta, buf, k);
      if !f.skip {
        SoundInBuffer(f, meta.widthBits);
        ReadIsLongEnough(buf, f);
        TooShortIff(f.ty, ReadField(buf, f));
      }
    }
  }

  lemma {:induction false} ReadIsLongEnough(buf: seq<bv8>, f: FieldMeta)
    requires Sound(f, 8 * |buf|) && Sized(f)
    ensures |ReadField(buf, f)| == PackedLen(f.ty)
  {
    if f.Bits() > 8 {
      WriterAndReaderAgreeIff(f, 8 * |buf|);
      InWholeBytes(f, 8 * |buf|, 0);
    }
  }

  // --- The image of a struct, bit by bit

  /** Bit `n` belongs to field `k`. */
  predicate Owns(p: TypedPacket, k: nat, n: nat) {
    Present(p, k) && p.meta.fields[k].bitStart <= n < p.meta.fields[k].bitEnd
  }

  /** One more field: its own bits appear if they were clear, the others stay. */
  lemma {:induction false} NextFieldBit(p: TypedPacket, j: nat, next: nat, n: nat)
    requires j < |p.meta.fields| && next == j + 1 && n < 8 * Len(p)
    requires Owns(p, j, n) ==> !BitAt(WriteFields(p, j), n)
    ensures Owns(p, j, n) ==> n - p.meta.fields[j].bitStart < 8 * |FieldOf(p, j)|
    ensures BitAt(WriteFields(p, next), n)
      == if Owns(p, j, n) then BitAt(FieldOf(p, j), n - p.meta.fields[j].bitStart) else BitAt(WriteFields(p, j), n)
  {
    var f, before, after := p.meta.fields[j], WriteFields(p, j), WriteFields(p, next);
    if f.skip {
      assert after == before;
    } else {
      var enc := FieldOf(p, j);
      WritableField(p, j);
      assert after == WriteField(before, f, enc);
      WriteFieldBit(before, f, enc, n);
    }
  }

  /** Bits outside the fields written so far are clear. */
  lemma {:induction false} UnownedBitsAreClear(p: TypedPacket, j: nat, n: nat)
    requires j <= |p.meta.fields| && n < 8 * Len(p) && forall k :: 0 <= k < j ==> !Owns(p, k, n)
    ensures !BitAt(WriteFields(p, j), n)
  {
    if j == 0 {
      BitOfLowMask(0, n % 8);
    } else {
      var before := j - 1;
      UnownedBitsAreClear(p, before, n);
      NextFieldBit(p, before, j, n);
    }
  }

  lemma {:induction false} OneOwner(p: TypedPacket, j: nat, k: nat, n: nat)
    requires Owns(p, k, n) && j != k
    ensures !Owns(p, j, n)
  {
    assert LaidOut(p.meta);
  }

  /** Nothing has been written to a field's bits before it is its turn. */
  lemma {:induction false} FieldIsClearBefore(p: TypedPacket, k: nat, n: nat)
    requires k < |p.meta.fields| && n < 8 * Len(p) && Owns(p, k, n)
    ensures !BitAt(WriteFields(p, k), n)
  {
    forall i | 0 <= i < k
      ensures !Owns(p, i, n)
    {
      OneOwner(p, i, k, n);
    }
    UnownedBitsAreClear(p, k, n);
  }

  /** A later field leaves the bits of field `k` alone. */
  lemma {:induction false} LaterFieldKeepsBit(p: TypedPacket, j: nat, next: nat, k: nat, n: nat)
    requires k < j < |p.meta.fields| && next == j + 1 && n < 8 * Len(p) && Owns(p, k, n)
    ensures BitAt(WriteFields(p, next), n) == BitAt(WriteFields(p, j), n)
  {
    OneOwner(p, j, k, n);
    NextFieldBit(p, j, next, n);
  }

  /** A field's bits lie in the buffer and in its encoded value. */
  lemma {:induction false} OwnedBitIsInside(p: TypedPacket, k: nat, n: nat)
    requires Owns(p, k, n)
    ensures n < 8 * Len(p) && n - p.meta.fields[k].bitStart < 8 * |FieldOf(p, k)|
  {
    WritableField(p, k);
  }

  /** A field's bits are those of its encoded value once it is written. */
  lemma {:induction false} OwnBitIsWritten(p: TypedPacket, k: nat, next: nat, n: nat)
    requires Owns(p, k, n) && next == k + 1
    ensures n < 8 * Len(p) && n - p.meta.fields[k].bitStart < 8 * |FieldOf(p, k)|
    ensures BitAt(WriteFields(p, next), n) == BitAt(FieldOf(p, k), n - p.meta.fields[k].bitStart)
  {
    OwnedBitIsInside(p, k, n);
    FieldIsClearBefore(p, k, n);
    NextFieldBit(p, k, next, n);
  }

  /** A bit of field `k` is that bit of its encoded value, whatever else is written. */
  lemma {:induction false} OwnedBitsAreKept(p: TypedPacket, j: nat, k: nat, n: nat)
    requires k < j <= |p.meta.fields| && Owns(p, k, n)
    ensures n < 8 * Len(p) && n - p.meta.fields[k].bitStart < 8 * |FieldOf(p, k)|
    ensures BitAt(WriteFields(p, j), n) == BitAt(FieldOf(p, k), n - p.meta.fields[k].bitStart)
  {
    var before := j - 1;
    if before == k {
      OwnBitIsWritten(p, k, j, n);
    } else {
      OwnedBitsAreKept(p, before, k, n);
      LaterFieldKeepsBit(p, before, j, k, n);
    }
  }

  // --- Reading back what was written

  /** The low `w` bits of an encoded value. */
  function Cut(enc: seq<bv8>, w: nat): (r: seq<bv8>)
    ensures |r| == |enc|
  {
    if |enc| == 1 && w < 8 then [enc[0] & LowMask(w)] else enc
  }

  lemma {:induction false} CutBit(enc: seq<bv8>, w: nat, i: nat)
    requires i < 8 * |enc| && (if w <= 8 then |enc| == 1 else 8 * |enc| == w)
    ensures BitAt(Cut(enc, w), i) == (i < w && BitAt(enc, i))
  {
    if w < 8 {
      BitOfAnd(enc[0], LowMask(w), i);
      BitOfLowMask(w, i);
    }
  }

  lemma {:induction false} ReadLength(buf: seq<bv8>, f: FieldMeta, enc: seq<bv8>)
    requires Writable(|buf|, f, |enc|)
    ensures |ReadField(buf, f)| == |enc|
  {
    WriterAndReaderAgreeIff(f, 8 * |buf|);
    if f.Bytes() != 1 {
      InWholeBytes(f, 8 * |buf|, 0);
    }
  }

  /** A field whose bits in the buffer are those of `enc` is read as `enc`, cut to its width. */
  lemma {:induction false} ReadsAsCut(buf: seq<bv8>, f: FieldMeta, enc: seq<bv8>)
    requires Writable(|buf|, f, |enc|) && f.Bits() <= 8 * |enc| && f.bitEnd <= 8 * |buf|
    requires forall n :: f.bitStart <= n < f.bitEnd ==> BitAt(buf, n) == BitAt(enc, n - f.bitStart)
    ensures ReadField(buf, f) == Cut(enc, f.Bits())
  {
    ReadLength(buf, f, enc);
    forall i | 0 <= i < 8 * |enc|
      ensures BitAt(ReadField(buf, f), i) == BitAt(Cut(enc, f.Bits()), i)
    {
      ReadFieldBit(buf, f, i);
      CutBit(enc, f.Bits(), i);
      if i < f.Bits() {
        assert BitAt(buf, f.bitStart + i) == BitAt(enc, f.bitStart + i - f.bitStart);
      }
    }
    SameBuffer(ReadField(buf, f), Cut(enc, f.Bits()));
  }

  /** Reading a field of a written struct gives the field's encoded value cut to the field's width:
      no field disturbs another, however wide its value. */
  lemma {:induction false} FieldsAreIndependent(p: TypedPacket, k: nat)
    requires Present(p, k)
    ensures Writable(Len(p), p.meta.fields[k], |FieldOf(p, k)|)
    ensures ReadField(WriteFields(p, |p.meta.fields|), p.meta.fields[k]) == Cut(FieldOf(p, k), p.meta.fields[k].Bits())
  {
    WritableField(p, k);
    var f, buf := p.meta.fields[k], WriteFields(p, |p.meta.fields|);
    forall n | f.bitStart <= n < f.bitEnd
      ensures BitAt(buf, n) == BitAt(FieldOf(p, k), n - f.bitStart)
    {
      OwnedBitsAreKept(p, |p.meta.fields|, k, n);
    }
    ReadsAsCut(buf, f, FieldOf(p, k));
  }
}
