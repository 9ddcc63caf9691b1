/** The column-type compatibility table of RP-DB-003 (internal/invariant/typecompat.go). */
module TypeCompat {
  import opened Wrappers
  import opened Text

  datatype TypeCompatibility = TypeIncomparable | TypeWidening | TypeNarrowing

  datatype Family = IntegerFamily | FloatFamily | TextFamily | VarcharFamily

  datatype TypeInfo = TypeInfo(family: Family, size: int)

  const UNBOUNDED: int := -1

  function IntegerRank(s: string): Option<int> {
    if s == "smallint" || s == "int2" then Some(1)
    else if s == "integer" || s == "int" || s == "int4" then Some(2)
    else if s == "bigint" || s == "int8" then Some(3)
    else None
  }

  function FloatRank(s: string): Option<int> {
    if s == "real" || s == "float4" then Some(1)
    else if s == "double precision" || s == "float8" then Some(2)
    else None
  }

  /** Matches "<name>" or "<name>(N)". */
  function ParseSized(s: string, name: string): Option<int> {
    if s == name then
      Some(UNBOUNDED)
    else if !(name + "(" <= s) then
      None
    else
      var rest := s[|name| + 1..];
      if !HasSuffix(rest, ")") then None else Atoi(TrimSpace(rest[..|rest| - 1]))
  }

  function ParseType(raw: string): Option<TypeInfo> {
    ParseName(ToLower(TrimSpace(raw)))
  }

  function ParseName(s: string): Option<TypeInfo> {
    if IntegerRank(s).Some? then
      Some(TypeInfo(IntegerFamily, IntegerRank(s).value))
    else if FloatRank(s).Some? then
      Some(TypeInfo(FloatFamily, FloatRank(s).value))
    else if s == "text" then
      Some(TypeInfo(TextFamily, 0))
    else if ParseSized(s, "varchar").Some? then
      Some(TypeInfo(VarcharFamily, ParseSized(s, "varchar").value))
    else if ParseSized(s, "character varying").Some? then
      Some(TypeInfo(VarcharFamily, ParseSized(s, "character varying").value))
    else
      None
  }

  function CompareRank(oldRank: int, newRank: int): TypeCompatibility {
    if newRank >= oldRank then TypeWidening else TypeNarrowing
  }

  function CompareBoundedSize(oldSize: int, newSize: int): TypeCompatibility {
    if newSize == UNBOUNDED then TypeWidening
    else if oldSize == UNBOUNDED then TypeNarrowing
    else CompareRank(oldSize, newSize)
  }

  function CompareTypes(o: TypeInfo, n: TypeInfo): TypeCompatibility {
    match (o.family, n.family)
    case (IntegerFamily, IntegerFamily) => CompareRank(o.size, n.size)
    case (FloatFamily, FloatFamily) => CompareRank(o.size, n.size)
    case (VarcharFamily, VarcharFamily) => CompareBoundedSize(o.size, n.size)
    case (VarcharFamily, TextFamily) => TypeWidening
    case (TextFamily, VarcharFamily) => if n.size == UNBOUNDED then TypeWidening else TypeNarrowing
    case (TextFamily, TextFamily) => TypeWidening
    case _ => TypeIncomparable
  }

  function ClassifyTypeChange(oldRaw: string, newRaw: string): TypeCompatibility {
    match (ParseType(oldRaw), ParseType(newRaw))
    case (Some(o), Some(n)) => CompareTypes(o, n)
    case _ => TypeIncomparable
  }

  predicate Widens(oldRaw: string, newRaw: string) {
    ClassifyTypeChange(oldRaw, newRaw) == TypeWidening
  }

  /** Widening is a preorder on exactly the recognised types. */
  lemma WideningIsPreorder(a: string, b: string, c: string)
    ensures Widens(a, a) <==> ParseType(a).Some?
    ensures Widens(a, b) && Widens(b, c) ==> Widens(a, c)
  {
    hide ParseType;
  }

  // ---- what a type admits ----

  /**
   A stored value, as far as widening is concerned: an integer, a binary floating-point
   number by the bits and the exponent its significand needs, or a text of some length.
   */
  datatype SqlValue = IntegerValue(n: int) | FloatValue(bits: nat, exponent: int) | TextValue(length: nat)

  /** The values of a type: fixed-width numbers, or texts up to the declared length. */
  predicate Admits(t: TypeInfo, v: SqlValue) {
    match t.family
    case IntegerFamily =>
      v.IntegerValue?
      && var bound := if t.size == 1 then 0x8000 else if t.size == 2 then 0x8000_0000 else 0x8000_0000_0000_0000;
         -bound <= v.n < bound
    case FloatFamily =>
      v.FloatValue?
      && if t.size == 1 then v.bits <= 24 && -126 <= v.exponent <= 127 else v.bits <= 53 && -1022 <= v.exponent <= 1023
    case TextFamily => v.TextValue?
    case VarcharFamily => v.TextValue? && (t.size == UNBOUNDED || v.length <= t.size)
  }

  ghost predicate AdmitsAll(o: TypeInfo, n: TypeInfo) {
    forall v :: Admits(o, v) ==> Admits(n, v)
  }

  /** A varchar of a negative length other than the unbounded marker: it admits no value at all. */
  predicate IsEmptyType(t: TypeInfo) {
    t.family == VarcharFamily && t.size < UNBOUNDED
  }

  lemma ParsedSizes(raw: string)
    requires ParseType(raw).Some?
    ensures ParseType(raw).value.family == IntegerFamily ==> 1 <= ParseType(raw).value.size <= 3
    ensures ParseType(raw).value.family == FloatFamily ==> 1 <= ParseType(raw).value.size <= 2
  {
    hide ParseSized;
  }

  /** A change between types that are not empty widens exactly when every old value is still admitted. */
  lemma WidensIffAdmitsAll(o: TypeInfo, n: TypeInfo)
    requires !IsEmptyType(o)
    requires o.family == IntegerFamily ==> 1 <= o.size <= 3
    requires n.family == IntegerFamily ==> 1 <= n.size <= 3
    requires o.family == FloatFamily ==> 1 <= o.size <= 2
    requires n.family == FloatFamily ==> 1 <= n.size <= 2
    ensures CompareTypes(o, n) == TypeWidening <==> AdmitsAll(o, n)
  {
    if CompareTypes(o, n) != TypeWidening {
      var v := Separating(o, n);
      assert Admits(o, v) && !Admits(n, v);
    }
  }

  /**
   Between recognised types, a change is widening exactly when every old value is still
   admitted, unless the old type is empty, a varchar of negative length that the parser of
   types accepts, and the new one an integer, a float or a still lower length.
   */
  lemma WideningIsInclusion(oldRaw: string, newRaw: string)
    requires ParseType(oldRaw).Some? && ParseType(newRaw).Some?
    ensures var o, n := ParseType(oldRaw).value, ParseType(newRaw).value;
            (Widens(oldRaw, newRaw) <==> AdmitsAll(o, n)) <==>
            !(IsEmptyType(o) && (n.family == IntegerFamily || n.family == FloatFamily || (IsEmptyType(n) && n.size < o.size)))
  {
    ParsedSizes(oldRaw);
    ParsedSizes(newRaw);
    hide ParseType;
    var o, n := ParseType(oldRaw).value, ParseType(newRaw).value;
    if IsEmptyType(o) {
      assert AdmitsAll(o, n);
    } else {
      WidensIffAdmitsAll(o, n);
    }
  }

  /** A value the old type holds and the new one does not, when the change does not widen. */
  lemma Separating(o: TypeInfo, n: TypeInfo) returns (v: SqlValue)
    requires !IsEmptyType(o)
    requires o.family == IntegerFamily ==> 1 <= o.size <= 3
    requires n.family == IntegerFamily ==> 1 <= n.size <= 3
    requires o.family == FloatFamily ==> 1 <= o.size <= 2
    requires n.family == FloatFamily ==> 1 <= n.size <= 2
    requires CompareTypes(o, n) != TypeWidening
    ensures Admits(o, v) && !Admits(n, v)
  {
    match o.family
    case IntegerFamily =>
      v := IntegerValue(if o.size == 1 then 0 else if o.size == 2 then 0x7FFF_FFFF else 0x7FFF_FFFF_FFFF_FFFF);
    case FloatFamily => v := FloatValue(if o.size == 1 then 0 else 53, 0);
    case _ => v := TextValue(if n.family == VarcharFamily && n.size >= 0 then n.size + 1 else 0);
  }
}
