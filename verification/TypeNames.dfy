/**
 What the spelling of a column type means: which values a column declared so holds. The
 table of internal/invariant/typecompat.go is proved against it.
 */
module TypeNames {
  import opened Wrappers
  import opened Text
  import opened Decimals
  import opened TypeCompat

  /** The values of a type; the texts of a negative limit are none. */
  datatype Domain =
    | Integers(low: int, high: int)
    | Floats(bits: nat, low: int, high: int)
    | Texts(limit: Option<int>)

  predicate Contains(d: Domain, v: SqlValue) {
    match d
    case Integers(low, high) => v.IntegerValue? && low <= v.n <= high
    case Floats(bits, low, high) => v.FloatValue? && v.bits <= bits && low <= v.exponent <= high
    case Texts(None) => v.TextValue?
    case Texts(Some(limit)) => v.TextValue? && v.length <= limit
  }

  const INT16 := Integers(-0x8000, 0x7FFF)
  const INT32 := Integers(-0x8000_0000, 0x7FFF_FFFF)
  const INT64 := Integers(-0x8000_0000_0000_0000, 0x7FFF_FFFF_FFFF_FFFF)
  const BINARY32 := Floats(24, -126, 127)
  const BINARY64 := Floats(53, -1022, 1023)
  const ANY_TEXT := Texts(None)

  /** The names without a length. */
  const NAMES: map<string, Domain> := map[
    "smallint" := INT16, "int2" := INT16,
    "integer" := INT32, "int" := INT32, "int4" := INT32,
    "bigint" := INT64, "int8" := INT64,
    "real" := BINARY32, "float4" := BINARY32,
    "double precision" := BINARY64, "float8" := BINARY64,
    "text" := ANY_TEXT, "varchar" := ANY_TEXT, "character varying" := ANY_TEXT
  ]

  ghost predicate Sized(text: string, name: string, n: int, before: string, numeral: string, after: string) {
    && AllSpaces(before) && AllSpaces(after)
    && IsNumeral(numeral, n) && -MAX_INT64 - 1 <= n <= MAX_INT64
    && text == name + "(" + (before + numeral + after) + ")"
  }

  /** text is a name with a length in parentheses, blanks allowed inside them. */
  ghost predicate IsSized(text: string, name: string, n: int) {
    exists before, numeral, after :: Sized(text, name, n, before, numeral, after)
  }

  /** A length of -1 is read as no limit. */
  function LimitOf(n: int): Option<int> {
    if n == -1 then None else Some(n)
  }

  /** The meaning of a trimmed lower-case text. */
  ghost predicate Names(text: string, d: Domain) {
    || (text in NAMES && d == NAMES[text])
    || exists n :: d == Texts(LimitOf(n)) && (IsSized(text, "varchar", n) || IsSized(text, "character varying", n))
  }

  /** The meaning of a type as it is spelled, in any letter case and with blanks around it. */
  ghost predicate Denotes(raw: string, d: Domain) {
    exists text :: Spells(raw, text) && Trimmed(text) && Names(text, d)
  }

  lemma SizedIsRead(s: string, name: string, n: int)
    requires IsSized(s, name, n)
    ensures s != name && ParseSized(s, name) == Some(n)
  {
    hide Atoi, IsNumeral;
    var before, numeral, after :| Sized(s, name, n, before, numeral, after);
    var inner := before + numeral + after;
    var rest := s[|name| + 1..];
    assert s == (name + "(") + (inner + ")");
    assert rest == inner + ")" && rest[..|rest| - 1] == inner;
    NumeralTrimmed(numeral, n);
    var a, b := TrimSplits(inner);
    assert inner[|before|..|before| + |numeral|] == numeral;
    assert inner[..|before|] == before && inner[|before| + |numeral|..] == after;
    TrimUnique(inner, a, b, |before|, |before| + |numeral|);
    AtoiExactly(numeral, n);
  }

  lemma NumeralTrimmed(s: string, n: int)
    requires IsNumeral(s, n)
    ensures Trimmed(s)
  {
    hide IsNumeral;
    NumeralIsRead(s, n);
    var digits := Unsigned(s);
    assert IsDigit(digits[|digits| - 1]) && s[|s| - 1] == digits[|digits| - 1];
    assert s == digits ==> IsDigit(digits[0]);
  }

  lemma ReadIsSized(s: string, name: string, n: int)
    requires s != name && ParseSized(s, name) == Some(n)
    ensures IsSized(s, name, n)
  {
    hide Atoi, IsNumeral, TrimSpace;
    var rest := s[|name| + 1..];
    var inner := rest[..|rest| - 1];
    var a, b := TrimSplits(inner);
    AtoiExactly(inner[a..b], n);
    assert inner == inner[..a] + inner[a..b] + inner[b..];
    assert s == name + "(" + inner + ")";
    assert Sized(s, name, n, inner[..a], inner[a..b], inner[b..]);
  }

  /** A text that ends in a parenthesis is none of the fixed names. */
  lemma SizedIsNoName(text: string, name: string, n: int)
    requires IsSized(text, name, n)
    ensures text !in NAMES && IntegerRank(text).None? && FloatRank(text).None? && text != "text"
    ensures text != "varchar" && text != "character varying"
    ensures name <= text
  {
    hide IsNumeral;
    assert text[|text| - 1] == ')';
  }

  /** The entry of the table that stands for d. */
  ghost predicate Fits(d: Domain, t: TypeInfo) {
    match t.family
    case IntegerFamily => (t.size == 1 && d == INT16) || (t.size == 2 && d == INT32) || (t.size == 3 && d == INT64)
    case FloatFamily => (t.size == 1 && d == BINARY32) || (t.size == 2 && d == BINARY64)
    case TextFamily => d == ANY_TEXT
    case VarcharFamily => d == Texts(LimitOf(t.size))
  }

  lemma FitsAdmits(d: Domain, t: TypeInfo)
    requires Fits(d, t)
    ensures forall v :: Admits(t, v) <==> Contains(d, v)
  {
  }

  lemma FixedMeaning(text: string)
    requires text in NAMES
    ensures ParseName(text).Some? && Fits(NAMES[text], ParseName(text).value)
  {
    hide ParseSized;
    assert ParseSized("varchar", "varchar") == Some(UNBOUNDED) && ParseSized("character varying", "character varying") == Some(UNBOUNDED) by {
      SameName("varchar");
      SameName("character varying");
    }
    NotVarchar();
  }

  lemma SameName(name: string)
    ensures ParseSized(name, name) == Some(UNBOUNDED)
  {
  }

  lemma NotVarchar()
    ensures ParseSized("character varying", "varchar").None?
  {
  }

  lemma SizedMeaning(text: string, n: int)
    requires IsSized(text, "varchar", n) || IsSized(text, "character varying", n)
    ensures ParseName(text) == Some(TypeInfo(VarcharFamily, n))
  {
    hide IsSized, Atoi;
    var name := if IsSized(text, "varchar", n) then "varchar" else "character varying";
    SizedIsRead(text, name, n);
    SizedIsNoName(text, name, n);
    if name != "varchar" {
      assert text[0] == name[0];
    }
  }

  /** The table gives every name the values it means. */
  lemma NameMeaning(text: string, d: Domain)
    requires Names(text, d)
    ensures ParseName(text).Some? && Fits(d, ParseName(text).value)
  {
    hide ParseName, IsSized;
    if text in NAMES && d == NAMES[text] {
      FixedMeaning(text);
    } else {
      var n :| d == Texts(LimitOf(n)) && (IsSized(text, "varchar", n) || IsSized(text, "character varying", n));
      SizedMeaning(text, n);
    }
  }

  /** And recognises no other. */
  lemma OnlyNames(text: string) returns (d: Domain)
    requires ParseName(text).Some?
    ensures Names(text, d)
  {
    hide ParseSized, IsSized;
    if text in NAMES {
      d := NAMES[text];
    } else {
      var name := if ParseSized(text, "varchar").Some? then "varchar" else "character varying";
      var n := ParseSized(text, name).value;
      ReadIsSized(text, name, n);
      d := Texts(LimitOf(n));
    }
  }

  /**
   A type is recognised exactly when its spelling denotes something, and then admits
   exactly the values that are meant.
   */
  lemma RecognisedExactly(raw: string)
    ensures ParseType(raw).Some? <==> exists d :: Denotes(raw, d)
    ensures forall d, v :: Denotes(raw, d) ==> (Admits(ParseType(raw).value, v) <==> Contains(d, v))
  {
    hide ParseName, Denotes, Names, Spells, Trimmed, Admits, Contains;
    var read := ToLower(TrimSpace(raw));
    if ParseType(raw).Some? {
      var d := OnlyNames(read);
      ReadIsTrimmed(raw);
      DenotesBy(raw, read, d);
    }
    forall d | Denotes(raw, d)
      ensures ParseType(raw).Some? && forall v :: Admits(ParseType(raw).value, v) <==> Contains(d, v)
    {
      DenotedFits(raw, d);
      FitsAdmits(d, ParseType(raw).value);
    }
  }

  lemma DenotesBy(raw: string, text: string, d: Domain)
    requires Spells(raw, text) && Trimmed(text) && Names(text, d)
    ensures Denotes(raw, d)
  {
  }

  lemma DenotedFits(raw: string, d: Domain)
    requires Denotes(raw, d)
    ensures ParseType(raw).Some? && Fits(d, ParseType(raw).value)
  {
    hide ParseName, Names, Spells, Trimmed, Fits;
    var text :| Spells(raw, text) && Trimmed(text) && Names(text, d);
    SpellsExactly(raw, text);
    NameMeaning(text, d);
  }

  lemma ReadIsTrimmed(raw: string)
    ensures Trimmed(ToLower(TrimSpace(raw))) && Spells(raw, ToLower(TrimSpace(raw)))
  {
    hide Spells, TrimSpace, ToLower;
    var a, b := TrimSplits(raw);
    LowerLetter(raw[a..b], ToLower(TrimSpace(raw)));
    SameSpaces(raw[a..b], ToLower(TrimSpace(raw)));
    SpellsExactly(raw, ToLower(TrimSpace(raw)));
  }

  ghost predicate Includes(n: Domain, o: Domain) {
    forall v :: Contains(o, v) ==> Contains(n, v)
  }

  /**
   A change widens exactly when the new spelling means every value the old one means, but
   for an old length below -1, which means no text at all, when the new type is a number
   or a lower length.
   */
  lemma WideningBySpelling(oldRaw: string, newRaw: string, o: Domain, n: Domain)
    requires Denotes(oldRaw, o) && Denotes(newRaw, n)
    ensures (Widens(oldRaw, newRaw) <==> Includes(n, o)) <==>
            !(o.Texts? && o.limit.Some? && o.limit.value < 0
              && (!n.Texts? || (n.limit.Some? && n.limit.value < o.limit.value)))
  {
    hide Widens, Denotes;
    DenotedFits(oldRaw, o);
    DenotedFits(newRaw, n);
    hide ParseType;
    var was, will := ParseType(oldRaw).value, ParseType(newRaw).value;
    FitsAdmits(o, was);
    FitsAdmits(n, will);
    hide Admits, Contains;
    assert AdmitsAll(was, will) <==> Includes(n, o);
    WideningIsInclusion(oldRaw, newRaw);
  }

  /** A change from or to a spelling that means nothing never widens. */
  lemma UnrecognisedNeverWidens(oldRaw: string, newRaw: string)
    requires Widens(oldRaw, newRaw)
    ensures (exists d :: Denotes(oldRaw, d)) && exists d :: Denotes(newRaw, d)
  {
    hide ParseType, Denotes;
    RecognisedExactly(oldRaw);
    RecognisedExactly(newRaw);
  }
}
