/** The enum half of the wire derive: from declared variants to the match arms that are emitted, and
    what those arms make of a value. A variant is named by its position in the declaration. */
module WireEnum {
  import opened Common

  datatype VariantDecl = VariantDecl(discriminant: Option<int>, alternatives: seq<int>, catchAll: bool, isDefault: bool)

  /** One emitted match arm. */
  datatype Arm = Arm(name: nat, discriminant: int, catchAll: bool)

  /** `values` are the discriminants rustc gives the variants, used by `self as repr`. */
  datatype EnumMeta = EnumMeta(arms: seq<Arm>, catchAll: Option<nat>, default: Option<nat>, values: seq<int>)

  datatype EnumError = CatchAllWithAlternatives | TwoCatchAlls | TwoDefaults

  datatype Variant = Named(name: nat) | Other(raw: int)

  // --- Discriminants

  /** The discriminant rustc gives variant `i`: one more than the variant before, starting at 0. */
  function RustDiscriminant(decls: seq<VariantDecl>, i: nat): int
    requires i < |decls|
  {
    match decls[i].discriminant
    case Some(d) => d
    case None => if i == 0 then 0 else RustDiscriminant(decls, i - 1) + 1
  }

  /** The parser's running discriminant after variant `i` and its alternatives. */
  function Accum(decls: seq<VariantDecl>, i: nat): int
    requires i <= |decls|
    decreases i, 0
  {
    if i == 0 then 0
    else
      var alts := decls[i - 1].alternatives;
      if alts == [] then ParsedDiscriminant(decls, i - 1) else alts[|alts| - 1]
  }

  /** The discriminant the parser gives variant `i`. */
  function ParsedDiscriminant(decls: seq<VariantDecl>, i: nat): int
    requires i < |decls|
    decreases i, 1
  {
    match decls[i].discriminant
    case Some(d) => d
    case None => Accum(decls, i) + 1
  }

  // --- Match arms

  function AlternativeArms(name: nat, alternatives: seq<int>): (arms: seq<Arm>)
    ensures |arms| == |alternatives|
    ensures forall k :: 0 <= k < |arms| ==> arms[k] == Arm(name, alternatives[k], false)
  {
    if alternatives == [] then []
    else [Arm(name, alternatives[0], false)] + AlternativeArms(name, alternatives[1..])
  }

  function ArmsOf(decls: seq<VariantDecl>, i: nat): seq<Arm>
    requires i < |decls|
  {
    [Arm(i, ParsedDiscriminant(decls, i), decls[i].catchAll)] + AlternativeArms(i, decls[i].alternatives)
  }

  /** The arms of the first `n` variants, in declaration order. */
  function Arms(decls: seq<VariantDecl>, n: nat): seq<Arm>
    requires n <= |decls|
  {
    if n == 0 then [] else Arms(decls, n - 1) + ArmsOf(decls, n - 1)
  }

  function CatchAllAmong(decls: seq<VariantDecl>, n: nat): (r: Option<nat>)
    requires n <= |decls|
    ensures r.Some? ==> r.value < n && decls[r.value].catchAll
    ensures r.None? ==> forall j :: 0 <= j < n ==> !decls[j].catchAll
  {
    if n == 0 then None else if decls[n - 1].catchAll then Some(n - 1) else CatchAllAmong(decls, n - 1)
  }

  function DefaultAmong(decls: seq<VariantDecl>, n: nat): (r: Option<nat>)
    requires n <= |decls|
    ensures r.Some? ==> r.value < n && decls[r.value].isDefault
    ensures r.None? ==> forall j :: 0 <= j < n ==> !decls[j].isDefault
  {
    if n == 0 then None else if decls[n - 1].isDefault then Some(n - 1) else DefaultAmong(decls, n - 1)
  }

  /** What the parser demands of variant `i`, given the variants before it. */
  predicate VariantOk(decls: seq<VariantDecl>, i: nat)
    requires i < |decls|
  {
    && (decls[i].catchAll ==> decls[i].alternatives == [] && CatchAllAmong(decls, i).None?)
    && (decls[i].isDefault ==> DefaultAmong(decls, i).None?)
  }

  predicate Accepted(decls: seq<VariantDecl>) {
    forall i :: 0 <= i < |decls| ==> VariantOk(decls, i)
  }

  /** Accepted are enums with at most one catch-all, without alternatives, and at most one default. */
  lemma {:induction false} AcceptedIff(decls: seq<VariantDecl>)
    ensures Accepted(decls) <==>
      && (forall i :: 0 <= i < |decls| && decls[i].catchAll ==> decls[i].alternatives == [])
      && (forall i, j :: 0 <= i < j < |decls| ==> !(decls[i].catchAll && decls[j].catchAll))
      && (forall i, j :: 0 <= i < j < |decls| ==> !(decls[i].isDefault && decls[j].isDefault))
  {
    forall i, j | 0 <= i < j < |decls| && decls[i].catchAll && decls[j].catchAll
      ensures !Accepted(decls)
    {
      assert !VariantOk(decls, j);
    }
    forall i, j | 0 <= i < j < |decls| && decls[i].isDefault && decls[j].isDefault
      ensures !Accepted(decls)
    {
      assert !VariantOk(decls, j);
    }
    forall i | 0 <= i < |decls| && decls[i].catchAll && decls[i].alternatives != []
      ensures !Accepted(decls)
    {
      assert !VariantOk(decls, i);
    }
  }

  function MetaOf(decls: seq<VariantDecl>): EnumMeta {
    EnumMeta(Arms(decls, |decls|), CatchAllAmong(decls, |decls|), DefaultAmong(decls, |decls|),
             seq(|decls|, i requires 0 <= i < |decls| => RustDiscriminant(decls, i)))
  }

  /** Push the record of a variant and one record for each of its alternatives. */
  method PushVariant(variants: seq<Arm>, name: nat, discriminant: int, decl: VariantDecl)
    returns (arms: seq<Arm>, accum: int)
    ensures arms == variants + ([Arm(name, discriminant, decl.catchAll)] + AlternativeArms(name, decl.alternatives))
    ensures accum == if decl.alternatives == [] then discriminant else decl.alternatives[|decl.alternatives| - 1]
  {
    var alts := decl.alternatives;
    ghost var all := AlternativeArms(name, alts);
    arms, accum := variants + [Arm(name, discriminant, decl.catchAll)], discriminant;
    for k := 0 to |alts|
      invariant arms == variants + ([Arm(name, discriminant, decl.catchAll)] + all[..k])
      invariant accum == if k == 0 then discriminant else alts[k - 1]
    {
      assert all[..k + 1] == all[..k] + [all[k]];
      arms, accum := arms + [Arm(name, alts[k], false)], alts[k];
    }
    assert all[..|alts|] == all;
  }

  /** Collect the arms, the catch-all and the default variant of an enum. The discriminants rustc
      assigns are passed in. */
  method ParseEnum(decls: seq<VariantDecl>, values: seq<int>) returns (r: Result<EnumMeta, EnumError>)
    requires |values| == |decls| && forall i :: 0 <= i < |decls| ==> values[i] == RustDiscriminant(decls, i)
    ensures r.Ok? <==> Accepted(decls)
    ensures r.Ok? ==> r.value == MetaOf(decls)
  {
    var accum := 0;
    var arms: seq<Arm> := [];
    var catchAll: Option<nat> := None;
    var default: Option<nat> := None;
    for i := 0 to |decls|
      invariant accum == Accum(decls, i) && arms == Arms(decls, i)
      invariant catchAll == CatchAllAmong(decls, i) && default == DefaultAmong(decls, i)
      invariant forall j :: 0 <= j < i ==> VariantOk(decls, j)
    {
      var decl := decls[i];
      var discriminant := if decl.discriminant.Some? then decl.discriminant.value else accum + 1;
      if decl.catchAll && decl.alternatives != [] {
        assert !VariantOk(decls, i);
        return Err(CatchAllWithAlternatives);
      }
      if decl.catchAll {
        if catchAll.Some? {
          assert !VariantOk(decls, i);
          return Err(TwoCatchAlls);
        }
        catchAll := Some(i);
      }
      if decl.isDefault {
        if default.Some? {
          assert !VariantOk(decls, i);
          return Err(TwoDefaults);
        }
        default := Some(i);
      }
      arms, accum := PushVariant(arms, i, discriminant, decl);
      assert VariantOk(decls, i);
    }
    assert values == MetaOf(decls).values;
    r := Ok(EnumMeta(arms, catchAll, default, values));
  }

  // --- What the emitted code does

  /** First arm for a variant, as the writer's match finds it. */
  function ArmFor(arms: seq<Arm>, name: nat): (r: Option<Arm>)
    ensures r.Some? ==> r.value.name == name && r.value in arms
  {
    if arms == [] then None else if arms[0].name == name then Some(arms[0]) else ArmFor(arms[1..], name)
  }

  /** The variant whose arm catches a raw value; catch-all arms are not among the patterns. */
  function Caught(arms: seq<Arm>, raw: int): (r: Option<nat>)
    ensures r.Some? ==> exists k :: 0 <= k < |arms| && arms[k] == Arm(r.value, raw, false)
    ensures r.None? ==> forall k :: 0 <= k < |arms| ==> arms[k] != Arm(arms[k].name, raw, false)
  {
    if arms == [] then None
    else if !arms[0].catchAll && arms[0].discriminant == raw then
      assert arms[0] == Arm(arms[0].name, raw, false);
      Some(arms[0].name)
    else
      var r := Caught(arms[1..], raw);
      assert r.Some? ==> exists k ::
          0 <= k < |arms[1..]| && arms[1..][k] == Arm(r.value, raw, false) && arms[k + 1] == arms[1..][k];
      assert forall k :: 1 <= k < |arms| ==> arms[k] == arms[1..][k - 1];
      r
  }

  /** The raw value written for a variant. */
  function Encode(meta: EnumMeta, v: Variant): Option<int> {
    match v
    case Other(raw) => if meta.catchAll.Some? then Some(raw) else None
    case Named(name) =>
      if meta.catchAll.Some? then
        match ArmFor(meta.arms, name)
        case None => None
        case Some(arm) => if arm.catchAll then None else Some(arm.discriminant)
      else if name < |meta.values| then Some(meta.values[name])
      else None
  }

  /** The variant read from a raw value; nothing stands for `InvalidValue`. */
  function Decode(meta: EnumMeta, raw: int): Option<Variant> {
    match Caught(meta.arms, raw)
    case Some(name) => Some(Named(name))
    case None =>
      if meta.catchAll.Some? then Some(Other(raw))
      else if meta.default.Some? then Some(Named(meta.default.value))
      else None
  }

  // --- On the declaration

  /** Variant `i` lists a raw value: as its discriminant or as an alternative. A catch-all lists nothing. */
  predicate Lists(decls: seq<VariantDecl>, i: nat, raw: int)
    requires i < |decls|
  {
    !decls[i].catchAll && (raw == ParsedDiscriminant(decls, i) || raw in decls[i].alternatives)
  }

  /** Variant `i` is the first one to list a raw value. */
  predicate ListsFirst(decls: seq<VariantDecl>, i: nat, raw: int)
    requires i < |decls|
  {
    Lists(decls, i, raw) && forall j :: 0 <= j < i ==> !Lists(decls, j, raw)
  }

  predicate Unlisted(decls: seq<VariantDecl>, raw: int) {
    forall i :: 0 <= i < |decls| ==> !Lists(decls, i, raw)
  }

  predicate HasCatchAll(decls: seq<VariantDecl>) {
    exists i :: 0 <= i < |decls| && decls[i].catchAll
  }

  /** The value that stands for variant `i` on the wire: the parser's discriminant with a catch-all, rustc's without. */
  function Written(decls: seq<VariantDecl>, i: nat): int
    requires i < |decls|
  {
    if HasCatchAll(decls) then ParsedDiscriminant(decls, i) else RustDiscriminant(decls, i)
  }

  /** What is left of an encoded variant, the number `raw`, still means the variant. */
  predicate Keeps(decls: seq<VariantDecl>, v: Variant, raw: int) {
    match v
    case Named(i) =>
      && i < |decls|
      && (ListsFirst(decls, i, raw) || (decls[i].isDefault && !HasCatchAll(decls) && Unlisted(decls, raw)))
    case Other(value) => HasCatchAll(decls) && raw == value && Unlisted(decls, raw)
  }

  // --- Theorems

  /** Position of the first arm of variant `i`. */
  function ArmAt(decls: seq<VariantDecl>, i: nat): nat
    requires i <= |decls|
  {
    |Arms(decls, i)|
  }

  lemma {:induction false} ArmsPrefix(decls: seq<VariantDecl>, i: nat, n: nat)
    requires i < n <= |decls|
    ensures Arms(decls, i) + ArmsOf(decls, i) <= Arms(decls, n)
  {
    if i + 1 < n {
      ArmsPrefix(decls, i, n - 1);
    }
  }

  /** Every arm belongs to the variant that declared it. */
  lemma {:induction false} ArmsAreDeclared(decls: seq<VariantDecl>, n: nat, k: nat)
    requires n <= |decls| && k < |Arms(decls, n)|
    ensures var a := Arms(decls, n)[k];
      && a.name < n
      && (a == Arm(a.name, ParsedDiscriminant(decls, a.name), decls[a.name].catchAll)
          || (a.discriminant in decls[a.name].alternatives && !a.catchAll))
  {
    if k < |Arms(decls, n - 1)| {
      ArmsAreDeclared(decls, n - 1, k);
    }
  }

  lemma {:induction false} CaughtInTwoParts(a: seq<Arm>, b: seq<Arm>, raw: int)
    ensures Caught(a + b, raw) == if Caught(a, raw).Some? then Caught(a, raw) else Caught(b, raw)
  {
    if a == [] {
      assert a + b == b;
    } else {
      assert (a + b)[0] == a[0] && (a + b)[1..] == a[1..] + b;
      CaughtInTwoParts(a[1..], b, raw);
    }
  }

  lemma {:induction false} CaughtByAlternatives(name: nat, alternatives: seq<int>, raw: int)
    ensures Caught(AlternativeArms(name, alternatives), raw) == if raw in alternatives then Some(name) else None
  {
    if alternatives != [] {
      assert AlternativeArms(name, alternatives)[1..] == AlternativeArms(name, alternatives[1..]);
      CaughtByAlternatives(name, alternatives[1..], raw);
      assert raw in alternatives <==> raw == alternatives[0] || raw in alternatives[1..];
    }
  }

  /** The arms of one variant catch what it lists; a catch-all must not have alternatives. */
  lemma {:induction false} CaughtByVariant(decls: seq<VariantDecl>, i: nat, raw: int)
    requires i < |decls| && VariantOk(decls, i)
    ensures Caught(ArmsOf(decls, i), raw) == if Lists(decls, i, raw) then Some(i) else None
  {
    var first := [Arm(i, ParsedDiscriminant(decls, i), decls[i].catchAll)];
    CaughtInTwoParts(first, AlternativeArms(i, decls[i].alternatives), raw);
    CaughtByAlternatives(i, decls[i].alternatives, raw);
    assert first[1..] == [];
  }

  /** A raw value is caught for the first of the first `n` variants that lists it. */
  lemma {:induction false} CaughtIsFirstLister(decls: seq<VariantDecl>, n: nat, raw: int)
    requires Accepted(decls) && n <= |decls|
    ensures match Caught(Arms(decls, n), raw)
            case Some(i) => i < n && ListsFirst(decls, i, raw)
            case None => forall i :: 0 <= i < n ==> !Lists(decls, i, raw)
  {
    if n > 0 {
      CaughtIsFirstLister(decls, n - 1, raw);
      assert VariantOk(decls, n - 1);
      CaughtInTwoParts(Arms(decls, n - 1), ArmsOf(decls, n - 1), raw);
      CaughtByVariant(decls, n - 1, raw);
    }
  }

  lemma {:induction false} CatchAllIsFound(decls: seq<VariantDecl>)
    ensures CatchAllAmong(decls, |decls|).Some? <==> HasCatchAll(decls)
  {
  }

  lemma {:induction false} DefaultIsUnique(decls: seq<VariantDecl>, i: nat, n: nat)
    requires Accepted(decls) && i < n <= |decls| && decls[i].isDefault
    ensures DefaultAmong(decls, n) == Some(i)
  {
    if i < n - 1 {
      DefaultIsUnique(decls, i, n - 1);
      assert VariantOk(decls, n - 1);
    }
  }

  /** A number decodes to a variant exactly if it means that variant: the first to list it, or else the catch-all, or
      else the default. */
  lemma {:induction false} DecodesIff(decls: seq<VariantDecl>, v: Variant, raw: int)
    requires Accepted(decls)
    ensures Decode(MetaOf(decls), raw) == Some(v) <==> Keeps(decls, v, raw)
  {
    CaughtIsFirstLister(decls, |decls|, raw);
    CatchAllIsFound(decls);
    match v
    case Other(_) =>
    case Named(i) =>
      if i < |decls| {
        if decls[i].isDefault {
          DefaultIsUnique(decls, i, |decls|);
        } else {
          assert DefaultAmong(decls, |decls|) != Some(i);
        }
        var caught := Caught(Arms(decls, |decls|), raw);
        assert caught.Some? && ListsFirst(decls, i, raw) ==> caught.value <= i <= caught.value;
      }
  }

  /** The discriminant of a variant and each of its alternatives decode to that variant, unless an earlier one lists
      them too. */
  lemma {:induction false} ListedValuesDecodeToOwner(decls: seq<VariantDecl>, i: nat, raw: int)
    requires Accepted(decls) && i < |decls| && Lists(decls, i, raw)
    ensures Decode(MetaOf(decls), raw) == Some(Named(i)) <==> forall j :: 0 <= j < i ==> !Lists(decls, j, raw)
  {
    DecodesIff(decls, Named(i), raw);
  }

  lemma {:induction false} ArmForPrimary(arms: seq<Arm>, name: nat, k: nat)
    requires k < |arms| && arms[k].name == name && forall j :: 0 <= j < k ==> arms[j].name != name
    ensures ArmFor(arms, name) == Some(arms[k])
  {
    if k > 0 {
      ArmForPrimary(arms[1..], name, k - 1);
    }
  }

  lemma {:induction false} PrimaryArm(decls: seq<VariantDecl>, i: nat)
    requires i < |decls|
    ensures ArmAt(decls, i) < |Arms(decls, |decls|)|
    ensures Arms(decls, |decls|)[ArmAt(decls, i)] == Arm(i, ParsedDiscriminant(decls, i), decls[i].catchAll)
    ensures forall j :: 0 <= j < ArmAt(decls, i) ==> Arms(decls, |decls|)[j] == Arms(decls, i)[j]
  {
    ArmsPrefix(decls, i, |decls|);
    var all, first := Arms(decls, |decls|), Arms(decls, i) + ArmsOf(decls, i);
    assert all[..|first|] == first;
    assert forall j :: 0 <= j < |first| ==> all[j] == first[j];
  }

  /** With a catch-all the parser's discriminant is written, without one rustc's. */
  lemma {:induction false} WrittenValue(decls: seq<VariantDecl>, i: nat)
    requires i < |decls|
    ensures Encode(MetaOf(decls), Named(i)) == if decls[i].catchAll then None else Some(Written(decls, i))
  {
    CatchAllIsFound(decls);
    if HasCatchAll(decls) {
      PrimaryArm(decls, i);
      var all, at := Arms(decls, |decls|), ArmAt(decls, i);
      forall j | 0 <= j < at
        ensures all[j].name != i
      {
        ArmsAreDeclared(decls, i, j);
      }
      ArmForPrimary(all, i, at);
    }
  }

  /** A variant is encoded to its own value; only declared variants, and with a catch-all any value, have an
      encoding. */
  lemma {:induction false} EncodedIs(decls: seq<VariantDecl>, v: Variant)
    ensures Encode(MetaOf(decls), v)
      == match v
         case Named(i) => if i < |decls| && !decls[i].catchAll then Some(Written(decls, i)) else None
         case Other(value) => if HasCatchAll(decls) then Some(value) else None
  {
    CatchAllIsFound(decls);
    match v
    case Other(_) =>
    case Named(i) =>
      if i < |decls| {
        WrittenValue(decls, i);
      } else if ArmFor(Arms(decls, |decls|), i).Some? {
        var arm := ArmFor(Arms(decls, |decls|), i).value;
        var k :| 0 <= k < |Arms(decls, |decls|)| && Arms(decls, |decls|)[k] == arm;
        ArmsAreDeclared(decls, |decls|, k);
      }
  }

  /** A named variant survives the wire exactly when it is the first to list the value written for it, or when nobody
      lists that value and it is the default of an enum without a catch-all. */
  lemma {:induction false} NamedRoundTripIff(decls: seq<VariantDecl>, i: nat)
    requires Accepted(decls) && i < |decls| && !decls[i].catchAll
    ensures Encode(MetaOf(decls), Named(i)) == Some(Written(decls, i))
    ensures Decode(MetaOf(decls), Written(decls, i)) == Some(Named(i))
      <==> (ListsFirst(decls, i, Written(decls, i))
            || (decls[i].isDefault && !HasCatchAll(decls) && Unlisted(decls, Written(decls, i))))
  {
    WrittenValue(decls, i);
    DecodesIff(decls, Named(i), Written(decls, i));
  }

  /** No value is listed by two variants. */
  ghost predicate ListedOnce(decls: seq<VariantDecl>) {
    forall i, j, raw: int :: 0 <= i < j < |decls| && Lists(decls, i, raw) ==> !Lists(decls, j, raw)
  }

  /** When no value is listed twice, a named variant of an enum with a catch-all always survives the wire, and one of an
      enum without exactly if the compiler's discriminant is the parser's, is one of its alternatives, or is listed by
      nobody and the variant is the default. */
  lemma {:induction false} ListedOnceRoundTripIff(decls: seq<VariantDecl>, i: nat)
    requires Accepted(decls) && ListedOnce(decls) && i < |decls| && !decls[i].catchAll
    ensures var raw := RustDiscriminant(decls, i);
      Decode(MetaOf(decls), Written(decls, i)) == Some(Named(i))
      <==> (HasCatchAll(decls) || raw == ParsedDiscriminant(decls, i) || raw in decls[i].alternatives
            || (decls[i].isDefault && Unlisted(decls, raw)))
  {
    var raw := Written(decls, i);
    NamedRoundTripIff(decls, i);
    assert Lists(decls, i, raw) <==> raw == ParsedDiscriminant(decls, i) || raw in decls[i].alternatives;
    assert forall j :: 0 <= j < i && Lists(decls, j, raw) ==> !Lists(decls, i, raw);
  }

  predicate AllExplicit(decls: seq<VariantDecl>) {
    forall i :: 0 <= i < |decls| ==> decls[i].discriminant.Some?
  }

  /** With explicit discriminants and no value listed twice every named variant survives the wire. */
  lemma {:induction false} ExplicitVariantsRoundTrip(decls: seq<VariantDecl>, i: nat)
    requires Accepted(decls) && ListedOnce(decls) && AllExplicit(decls) && i < |decls| && !decls[i].catchAll
    ensures Keeps(decls, Named(i), Written(decls, i))
    ensures Decode(MetaOf(decls), Written(decls, i)) == Some(Named(i))
  {
    assert decls[i].discriminant.Some?;
    assert Lists(decls, i, Written(decls, i));
    DecodesIff(decls, Named(i), Written(decls, i));
  }

  predicate Agree(decls: seq<VariantDecl>, i: nat)
    requires i < |decls|
  {
    ParsedDiscriminant(decls, i) == RustDiscriminant(decls, i)
  }

  /** An implicit discriminant follows a variant without alternatives (or one whose last
      alternative repeats its discriminant). */
  predicate FollowsOn(decls: seq<VariantDecl>, i: nat)
    requires i < |decls|
  {
    decls[i].discriminant.None? ==> i > 0 && Accum(decls, i) == ParsedDiscriminant(decls, i - 1)
  }

  /** Parser and compiler agree on every discriminant exactly when each implicit one follows on. */
  lemma {:induction false} DiscriminantsAgreeIff(decls: seq<VariantDecl>, n: nat)
    requires n <= |decls|
    ensures (forall i :: 0 <= i < n ==> Agree(decls, i)) <==> (forall i :: 0 <= i < n ==> FollowsOn(decls, i))
  {
    if n > 0 {
      DiscriminantsAgreeIff(decls, n - 1);
      assert (forall i :: 0 <= i < n ==> Agree(decls, i)) ==> Agree(decls, n - 1);
      assert (forall i :: 0 <= i < n ==> FollowsOn(decls, i)) ==> FollowsOn(decls, n - 1);
      if n > 1 && Agree(decls, n - 2) {
        assert Agree(decls, n - 1) <==> FollowsOn(decls, n - 1);
      }
    }
  }

  /** An enum whose first variant has no explicit discriminant does not survive the wire. */
  lemma {:induction false} ImplicitFirstVariantIsLost()
    ensures var decls := [VariantDecl(None, [], false, false), VariantDecl(None, [], false, false)];
      && Accepted(decls)
      && Encode(MetaOf(decls), Named(1)) == Some(1)
      && Decode(MetaOf(decls), 1) == Some(Named(0))
  {
    var decls := [VariantDecl(None, [], false, false), VariantDecl(None, [], false, false)];
    assert ParsedDiscriminant(decls, 0) == 1 && Accum(decls, 1) == 1 && ParsedDiscriminant(decls, 1) == 2;
    assert Arms(decls, 0) == [] && ArmsOf(decls, 0) == [Arm(0, 1, false)] && ArmsOf(decls, 1) == [Arm(1, 2, false)];
    assert Arms(decls, 1) == [Arm(0, 1, false)];
    assert Arms(decls, 2) == [Arm(0, 1, false), Arm(1, 2, false)];
    assert RustDiscriminant(decls, 0) == 0 && RustDiscriminant(decls, 1) == 1;
  }

  /** A catch-all value comes back as itself unless a variant lists it. */
  lemma {:induction false} CatchAllNormalises(decls: seq<VariantDecl>, raw: int)
    requires Accepted(decls) && HasCatchAll(decls)
    ensures Encode(MetaOf(decls), Other(raw)) == Some(raw)
    ensures Decode(MetaOf(decls), raw) == Some(Other(raw)) <==> Unlisted(decls, raw)
  {
    EncodedIs(decls, Other(raw));
    DecodesIff(decls, Other(raw), raw);
  }

  /** Decoding fails exactly on unlisted values of an enum with neither catch-all nor default. */
  lemma {:induction false} DecodeFailsIff(decls: seq<VariantDecl>, raw: int)
    requires Accepted(decls)
    ensures Decode(MetaOf(decls), raw).None?
      <==> (Unlisted(decls, raw) && forall i :: 0 <= i < |decls| ==> !decls[i].catchAll && !decls[i].isDefault)
  {
    CaughtIsFirstLister(decls, |decls|, raw);
    if CatchAllAmong(decls, |decls|).Some? {
      assert decls[CatchAllAmong(decls, |decls|).value].catchAll;
    } else if DefaultAmong(decls, |decls|).Some? {
      assert decls[DefaultAmong(decls, |decls|).value].isDefault;
    }
  }
}
