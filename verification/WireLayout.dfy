/** The struct half of the wire derive: the pass that turns a list of fields into a bit layout. */
module WireLayout {
  import opened Common
  import WireEnum

  /** Types a field may have. Integers are `bytes` wide, little endian. */
  datatype Ty =
    | U8
    | Bool
    | UInt(bytes: nat)
    | SInt(bytes: nat)
    | ByteArray(len: nat)
    | Enum(bytes: nat, signed: bool, decls: seq<WireEnum.VariantDecl>)
    | Struct(meta: StructMeta)

  datatype Value =
    | VBool(b: bool)
    | VInt(n: int)
    | VBytes(bytes: seq<bv8>)
    | VVariant(variant: WireEnum.Variant)
    | VStruct(fields: seq<Value>)

  /** A field as declared; `fallback` is its type's `Default` value, used when it is skipped. */
  datatype FieldDecl = FieldDecl(
    ty: Ty, bits: Option<nat>, skip: bool, preSkip: Option<nat>, postSkip: Option<nat>, fallback: Value)

  datatype FieldMeta = FieldMeta(
    ty: Ty, bitStart: nat, bitEnd: nat, byteStart: nat, byteEnd: nat, bitOffset: nat, skip: bool, fallback: Value) {
    function Bits(): nat {
      if bitStart <= bitEnd then bitEnd - bitStart else 0
    }

    function Bytes(): nat {
      if byteStart <= byteEnd then byteEnd - byteStart else 0
    }
  }

  datatype StructMeta = StructMeta(widthBits: nat, fields: seq<FieldMeta>)

  datatype LayoutError = NoStructWidth | NoFieldWidth(at: nat) | Unaligned(at: nat) | WrongTotal

  function DivCeil8(n: nat): nat {
    (n + 7) / 8
  }

  /** Width of a type that needs no attribute. */
  function DefaultWidth(ty: Ty): Option<nat> {
    match ty
    case U8 => Some(8)
    case UInt(bytes) => Some(8 * bytes)
    case SInt(bytes) => Some(8 * bytes)
    case _ => None
  }

  function WidthOf(d: FieldDecl): Option<nat> {
    if d.bits.Some? then d.bits else DefaultWidth(d.ty)
  }

  function OrZero(n: Option<nat>): nat {
    if n.Some? then n.value else 0
  }

  function PreSkip(d: FieldDecl): nat {
    if d.skip then 0 else OrZero(d.preSkip)
  }

  /** Bits a field takes, padding included; a skipped field takes none. */
  function Advance(d: FieldDecl): nat {
    if d.skip then 0 else OrZero(d.preSkip) + OrZero(WidthOf(d)) + OrZero(d.postSkip)
  }

  /** Bits taken by the first `n` fields. */
  function Taken(decls: seq<FieldDecl>, n: nat): nat
    requires n <= |decls|
  {
    if n == 0 then 0 else Taken(decls, n - 1) + Advance(decls[n - 1])
  }

  function StartOf(decls: seq<FieldDecl>, i: nat): nat
    requires i < |decls|
  {
    Taken(decls, i) + PreSkip(decls[i])
  }

  /** Where a field lies when it starts at bit `start`. */
  function Place(d: FieldDecl, start: nat): FieldMeta {
    var end := start + OrZero(WidthOf(d));
    FieldMeta(d.ty, start, end, start / 8, DivCeil8(end), start % 8, d.skip, d.fallback)
  }

  /** A field may be laid out at bit `start`: it has a width, and a field that spans several bytes
      starts and ends on byte boundaries. */
  predicate Fits(d: FieldDecl, start: nat) {
    d.skip || (WidthOf(d).Some? && !(Place(d, start).Bytes() > 1 && (start % 8 > 0 || WidthOf(d).value % 8 > 0)))
  }

  predicate AllFit(decls: seq<FieldDecl>, n: nat)
    requires n <= |decls|
  {
    n == 0 || (AllFit(decls, n - 1) && Fits(decls[n - 1], StartOf(decls, n - 1)))
  }

  /** The layout of the first `n` fields. */
  function Places(decls: seq<FieldDecl>, n: nat): (fields: seq<FieldMeta>)
    requires n <= |decls|
    ensures |fields| == n
  {
    if n == 0 then [] else Places(decls, n - 1) + [Place(decls[n - 1], StartOf(decls, n - 1))]
  }

  /** A field of fewer than eight bits that crosses a byte boundary is already refused as unaligned. */
  lemma {:induction false} NarrowFieldsNeverCross(d: FieldDecl, start: nat)
    requires !d.skip && Fits(d, start) && WidthOf(d).value < 8
    ensures Place(d, start).Bytes() <= 1
  {
  }

  lemma {:induction false} FirstMisfit(decls: seq<FieldDecl>, n: nat, m: nat)
    requires n <= m <= |decls| && !AllFit(decls, n)
    ensures !AllFit(decls, m)
  {
    if n < m {
      FirstMisfit(decls, n, m - 1);
    }
  }

  /** Lay out field number `i` after `taken` bits; the new running width comes back with it. */
  method LayField(d: FieldDecl, i: nat, taken: nat) returns (r: Result<FieldMeta, LayoutError>, total: nat)
    ensures r.Ok? <==> Fits(d, taken + PreSkip(d))
    ensures r.Ok? ==> r.value == Place(d, taken + PreSkip(d)) && total == taken + Advance(d)
    ensures r.Err? ==> r.error == NoFieldWidth(i) || r.error == Unaligned(i)
  {
    total := taken;
    var fieldWidth := WidthOf(d);
    if !d.skip && d.preSkip.Some? {
      total := total + d.preSkip.value;
    }
    var bitStart := total;
    var bitEnd := if fieldWidth.Some? then total + fieldWidth.value else total;
    var meta := FieldMeta(d.ty, bitStart, bitEnd, bitStart / 8, DivCeil8(bitEnd), bitStart % 8, d.skip, d.fallback);
    if !d.skip {
      if fieldWidth.None? {
        return Err(NoFieldWidth(i)), total;
      }
      if meta.Bytes() > 1 && (meta.bitOffset > 0 || fieldWidth.value % 8 > 0) {
        return Err(Unaligned(i)), total;
      }
      if meta.Bits() < 8 && meta.Bytes() > 1 {
        // Refused as unaligned above.
        assert false;
      }
      total := total + fieldWidth.value;
    }
    if !d.skip && d.postSkip.Some? {
      total := total + d.postSkip.value;
    }
    r := Ok(meta);
  }

  /** The layout the pass computes, or the reason it refuses. */
  method ParseStruct(width: Option<nat>, decls: seq<FieldDecl>) returns (r: Result<StructMeta, LayoutError>)
    ensures r.Ok? <==> width.Some? && AllFit(decls, |decls|) && Taken(decls, |decls|) == width.value
    ensures r.Ok? ==> r.value == StructMeta(width.value, Places(decls, |decls|))
    ensures r == Err(NoStructWidth) <==> width.None?
    ensures r == Err(WrongTotal) <==> width.Some? && AllFit(decls, |decls|) && Taken(decls, |decls|) != width.value
    ensures r.Err? && !r.error.NoStructWidth? && !r.error.WrongTotal? ==>
      var i := r.error.at; i < |decls| && AllFit(decls, i) && !Fits(decls[i], StartOf(decls, i))
  {
    if width.None? {
      return Err(NoStructWidth);
    }
    var total: nat := 0;
    var fields: seq<FieldMeta> := [];
    for i := 0 to |decls|
      invariant total == Taken(decls, i) && AllFit(decls, i) && fields == Places(decls, i)
    {
      var meta;
      meta, total := LayField(decls[i], i, total);
      if meta.Err? {
        FirstMisfit(decls, i + 1, |decls|);
        return Err(meta.error);
      }
      fields := fields + [meta.value];
    }
    if total != width.value {
      return Err(WrongTotal);
    }
    r := Ok(StructMeta(width.value, fields));
  }

  // --- What an accepted layout looks like

  /** The field lies inside the struct, and within one byte or on byte boundaries at both ends. */
  predicate Sound(f: FieldMeta, widthBits: nat) {
    && f.bitStart <= f.bitEnd <= widthBits
    && f.byteStart == f.bitStart / 8 && f.byteEnd == DivCeil8(f.bitEnd) && f.bitOffset == f.bitStart % 8
    && (f.Bytes() <= 1 || (f.bitOffset == 0 && f.Bits() % 8 == 0))
  }

  predicate LaidOut(meta: StructMeta) {
    && (forall k :: 0 <= k < |meta.fields| && !meta.fields[k].skip ==> Sound(meta.fields[k], meta.widthBits))
    && (forall j, k :: 0 <= j < k < |meta.fields| && !meta.fields[j].skip && !meta.fields[k].skip ==>
          meta.fields[j].bitEnd <= meta.fields[k].bitStart)
  }

  lemma {:induction false} PlacesAt(decls: seq<FieldDecl>, n: nat, i: nat)
    requires i < n <= |decls|
    ensures Places(decls, n)[i] == Place(decls[i], StartOf(decls, i))
  {
    if i < n - 1 {
      PlacesAt(decls, n - 1, i);
    }
  }

  lemma {:induction false} AllFitAt(decls: seq<FieldDecl>, n: nat, i: nat)
    requires i < n <= |decls| && AllFit(decls, n)
    ensures Fits(decls[i], StartOf(decls, i))
  {
    if i < n - 1 {
      AllFitAt(decls, n - 1, i);
    }
  }

  lemma {:induction false} TakenGrows(decls: seq<FieldDecl>, i: nat, n: nat)
    requires i <= n <= |decls|
    ensures Taken(decls, i) <= Taken(decls, n)
  {
    if i < n {
      TakenGrows(decls, i, n - 1);
    }
  }

  lemma {:induction false} EndsBefore(decls: seq<FieldDecl>, i: nat, n: nat)
    requires i < n <= |decls| && !decls[i].skip
    ensures Place(decls[i], StartOf(decls, i)).bitEnd <= Taken(decls, n)
  {
    TakenGrows(decls, i + 1, n);
  }

  lemma {:induction false} PlaceIsSound(d: FieldDecl, start: nat, widthBits: nat)
    requires Fits(d, start) && !d.skip && Place(d, start).bitEnd <= widthBits
    ensures Sound(Place(d, start), widthBits)
  {
  }

  /** When the pass accepts, the fields are ordered, pairwise disjoint and inside the declared width,
      and each lies within one byte or on byte boundaries. */
  lemma {:induction false} AcceptedIsLaidOut(decls: seq<FieldDecl>)
    requires AllFit(decls, |decls|)
    ensures LaidOut(StructMeta(Taken(decls, |decls|), Places(decls, |decls|)))
  {
    var n := |decls|;
    var fields := Places(decls, n);
    forall k | 0 <= k < n && !fields[k].skip
      ensures Sound(fields[k], Taken(decls, n))
    {
      PlacesAt(decls, n, k);
      AllFitAt(decls, n, k);
      EndsBefore(decls, k, n);
      PlaceIsSound(decls[k], StartOf(decls, k), Taken(decls, n));
    }
    forall j, k | 0 <= j < k < n && !fields[j].skip && !fields[k].skip
      ensures fields[j].bitEnd <= fields[k].bitStart
    {
      PlacesAt(decls, n, j);
      PlacesAt(decls, n, k);
      EndsBefore(decls, j, k);
    }
  }

  // --- Where the fields lie

  lemma {:induction false} SkippedTakeNothing(decls: seq<FieldDecl>, i: nat, n: nat)
    requires i <= n <= |decls| && forall k :: i <= k < n ==> decls[k].skip
    ensures Taken(decls, n) == Taken(decls, i)
  {
    if i < n {
      SkippedTakeNothing(decls, i, n - 1);
    }
  }

  /** The first field that is not skipped starts behind its own padding. */
  lemma {:induction false} FirstFieldStarts(decls: seq<FieldDecl>, k: nat)
    requires k < |decls| && !decls[k].skip && forall i :: 0 <= i < k ==> decls[i].skip
    ensures Places(decls, |decls|)[k].bitStart == OrZero(decls[k].preSkip)
  {
    SkippedTakeNothing(decls, 0, k);
    PlacesAt(decls, |decls|, k);
  }

  /** Each further one starts behind the end of the one before it, that one's padding behind and its own before; what is
      skipped in between takes nothing. */
  lemma {:induction false} FieldFollows(decls: seq<FieldDecl>, j: nat, k: nat)
    requires j < k < |decls| && !decls[j].skip && !decls[k].skip && forall i :: j < i < k ==> decls[i].skip
    ensures var fields := Places(decls, |decls|);
      fields[k].bitStart == fields[j].bitEnd + OrZero(decls[j].postSkip) + OrZero(decls[k].preSkip)
  {
    SkippedTakeNothing(decls, j + 1, k);
    PlacesAt(decls, |decls|, j);
    PlacesAt(decls, |decls|, k);
  }

  /** The struct ends behind the last one and its padding. */
  lemma {:induction false} LastFieldEnds(decls: seq<FieldDecl>, j: nat)
    requires j < |decls| && !decls[j].skip && forall i :: j < i < |decls| ==> decls[i].skip
    ensures Taken(decls, |decls|) == Places(decls, |decls|)[j].bitEnd + OrZero(decls[j].postSkip)
  {
    SkippedTakeNothing(decls, j + 1, |decls|);
    PlacesAt(decls, |decls|, j);
  }

  /** Each field is as wide as its attribute says, or as its type is if it has none, and its bytes are those that its
      bits touch. */
  lemma {:induction false} FieldIsWide(decls: seq<FieldDecl>, k: nat)
    requires k < |decls| && WidthOf(decls[k]).Some?
    ensures var f := Places(decls, |decls|)[k];
      && f.bitEnd == f.bitStart + (if decls[k].bits.Some? then decls[k].bits.value else DefaultWidth(decls[k].ty).value)
      && f.bitStart == 8 * f.byteStart + f.bitOffset && f.bitOffset < 8
      && 8 * f.byteEnd - 8 < f.bitEnd <= 8 * f.byteEnd
      && f.ty == decls[k].ty && f.skip == decls[k].skip && f.fallback == decls[k].fallback
  {
    PlacesAt(decls, |decls|, k);
  }

  /** Acceptance, read off the positions: every field that is not skipped has a width, and lies within one byte or
      starts and ends between bytes. */
  lemma {:induction false} AllFitIff(decls: seq<FieldDecl>, n: nat)
    requires n <= |decls|
    ensures AllFit(decls, n) <==> forall i :: 0 <= i < n && !decls[i].skip ==>
      && (decls[i].bits.Some? || DefaultWidth(decls[i].ty).Some?)
      && var f := Places(decls, |decls|)[i];
         f.bitEnd <= 8 * (f.bitStart / 8) + 8 || (f.bitStart % 8 == 0 && f.bitEnd % 8 == 0)
  {
    if n > 0 {
      var last := n - 1;
      AllFitIff(decls, last);
      PlacesAt(decls, |decls|, last);
      if !decls[last].skip {
        FitsIff(decls[last], StartOf(decls, last));
      }
    }
  }

  lemma {:induction false} FitsIff(d: FieldDecl, start: nat)
    requires !d.skip
    ensures Fits(d, start) <==>
      && WidthOf(d).Some?
      && var end := Place(d, start).bitEnd;
         end <= 8 * (start / 8) + 8 || (start % 8 == 0 && end % 8 == 0)
  {
  }

  /** A field of `bits` bits with padding behind it. */
  function Padded(ty: Ty, bits: nat, postSkip: nat): FieldDecl {
    FieldDecl(ty, Some(bits), false, None, Some(postSkip), VInt(0))
  }

  /** The register of an FMMU, ETG1000.4 Table 56. */
  function FmmuFields(): seq<FieldDecl> {
    [Padded(UInt(4), 32, 0), Padded(UInt(2), 16, 0), Padded(U8, 3, 5), Padded(U8, 3, 5), Padded(UInt(2), 16, 0),
     Padded(U8, 3, 5), Padded(Bool, 1, 0), Padded(Bool, 1, 6), Padded(Bool, 1, 31)]
  }

  /** In a row of fields, none skipped and without padding before them, each starts where the one before it and its
      padding end. */
  lemma {:induction false} NextInRow(decls: seq<FieldDecl>, k: nat)
    requires k + 1 < |decls| && forall i :: 0 <= i < |decls| ==>
      !decls[i].skip && decls[i].preSkip.None? && decls[i].bits.Some? && decls[i].postSkip.Some?
    ensures Places(decls, |decls|)[k + 1].bitStart
      == Places(decls, |decls|)[k].bitStart + decls[k].bits.value + decls[k].postSkip.value
  {
    FieldFollows(decls, k, k + 1);
    FieldIsWide(decls, k);
  }

  /** It is accepted with 16 bytes, and its fields lie where the table has them. */
  lemma {:induction false} FmmuIsLaidOut(decls: seq<FieldDecl>)
    requires decls == FmmuFields()
    ensures AllFit(decls, |decls|) && Taken(decls, |decls|) == 8 * 16
    ensures var f := Places(decls, |decls|);
      && f[0].bitStart == 0 && f[1].bitStart == 32 && f[2].bitStart == 48 && f[3].bitStart == 56 && f[4].bitStart == 64
      && f[5].bitStart == 80 && f[6].bitStart == 88 && f[7].bitStart == 89 && f[8].bitStart == 96
  {
    FirstFieldStarts(decls, 0);
    forall k: nat | k < 8
      ensures Places(decls, |decls|)[k + 1].bitStart
        == Places(decls, |decls|)[k].bitStart + decls[k].bits.value + decls[k].postSkip.value
    {
      NextInRow(decls, k);
    }
    FmmuFits(decls);
    FieldIsWide(decls, 8);
    LastFieldEnds(decls, 8);
  }

  lemma {:induction false} FmmuFits(decls: seq<FieldDecl>)
    requires decls == FmmuFields()
    requires var f := Places(decls, |decls|);
      && f[0].bitStart == 0 && f[1].bitStart == 32 && f[2].bitStart == 48 && f[3].bitStart == 56 && f[4].bitStart == 64
      && f[5].bitStart == 80 && f[6].bitStart == 88 && f[7].bitStart == 89 && f[8].bitStart == 96
    ensures AllFit(decls, |decls|)
  {
    var f := Places(decls, |decls|);
    forall k: nat | k < 9
      ensures f[k].bitEnd <= 8 * (f[k].bitStart / 8) + 8 || (f[k].bitStart % 8 == 0 && f[k].bitEnd % 8 == 0)
    {
      FieldIsWide(decls, k);
    }
    AllFitIff(decls, |decls|);
  }

  /** The CoE header: 16 bits, of which only the last four are kept. */
  lemma {:induction false} CoeHeaderIsLaidOut(service: FieldDecl)
    requires !service.skip && service.bits == Some(4) && service.preSkip == Some(12) && service.postSkip.None?
    ensures AllFit([service], 1) && Taken([service], 1) == 16
    ensures Places([service], 1)[0].bitStart == 12 && Places([service], 1)[0].bitEnd == 16
  {
    FirstFieldStarts([service], 0);
    LastFieldEnds([service], 0);
    AllFitIff([service], 1);
  }

  /** The writer asks whether a field fills one byte, the reader whether it has at most eight bits.
      They answer alike for every field except an empty one on a byte boundary. */
  lemma {:induction false} WriterAndReaderAgreeIff(f: FieldMeta, widthBits: nat)
    requires Sound(f, widthBits)
    ensures (f.Bytes() == 1 <==> f.Bits() <= 8) <==> (f.Bits() > 0 || f.bitOffset > 0)
  {
  }
}
