/** Version comparison (internal/invariant/rpordertypes.go). */
module Versions {
  import opened Wrappers
  import opened Text
  import opened Decimals

  /** The ordinals of a list of segments, if every segment is a non-negative number. */
  function SegmentOrdinals(parts: seq<string>): Option<seq<int>> {
    if parts == [] then
      Some([])
    else
      var n := |parts| - 1;
      match (SegmentOrdinals(parts[..n]), Atoi(parts[n]))
      case (Some(front), Some(last)) => if last < 0 then None else Some(front + [last])
      case _ => None
  }

  lemma {:induction false} SegmentOrdinalsPrefix(parts: seq<string>, k: nat)
    requires k <= |parts| && SegmentOrdinals(parts[..k]).None?
    ensures SegmentOrdinals(parts).None?
    decreases |parts|
  {
    if k == |parts| {
      assert parts[..k] == parts;
    } else {
      assert parts[..|parts| - 1][..k] == parts[..k];
      SegmentOrdinalsPrefix(parts[..|parts| - 1], k);
    }
  }

  function StripPrefix(s: string): string {
    TrimPrefix(TrimPrefix(s, "v"), "V")
  }

  function OrdinalsOf(s: string): Option<seq<int>> {
    if StripPrefix(s) == "" then None else SegmentOrdinals(Split(StripPrefix(s), '.'))
  }

  // ---- what a version string says ----

  ghost predicate SegmentsSay(parts: seq<string>, a: seq<int>) {
    |parts| == |a| && forall i :: 0 <= i < |a| ==> IsNumeral(parts[i], a[i]) && 0 <= a[i] <= MAX_INT64
  }

  ghost predicate VersionVia(s: string, a: seq<int>, prefix: string, parts: seq<string>) {
    && prefix in {"", "v", "V", "vV"}
    && parts != [] && SegmentsSay(parts, a)
    && s == prefix + Join(parts, '.')
  }

  /** s is a version prefix or none, and the numerals of a, joined by points. */
  ghost predicate IsVersion(s: string, a: seq<int>) {
    exists prefix, parts :: VersionVia(s, a, prefix, parts)
  }

  lemma {:induction false} SegmentsExactly(parts: seq<string>, a: seq<int>)
    ensures SegmentOrdinals(parts) == Some(a) <==> SegmentsSay(parts, a)
    decreases |parts|
  {
    hide Atoi, IsNumeral;
    if parts != [] {
      var n := |parts| - 1;
      if Atoi(parts[n]).Some? {
        AtoiExactly(parts[n], Atoi(parts[n]).value);
      }
      if SegmentOrdinals(parts[..n]).Some? {
        SegmentsExactly(parts[..n], SegmentOrdinals(parts[..n]).value);
      }
      if SegmentsSay(parts, a) {
        SegmentsExactly(parts[..n], a[..n]);
        AtoiExactly(parts[n], a[n]);
        assert a == a[..n] + [a[n]];
      }
    }
  }

  /** A numeral is not empty, and holds no letter and no point. */
  lemma NumeralChars(s: string, n: int)
    requires IsNumeral(s, n)
    ensures s != "" && forall c :: c in s ==> c != '.' && c != 'v' && c != 'V'
  {
    hide IsNumeral;
    NumeralIsRead(s, n);
    assert s == Unsigned(s) || s == [s[0]] + Unsigned(s);
  }

  lemma JoinStarts(parts: seq<string>, sep: char)
    requires parts != [] && parts[0] != ""
    ensures Join(parts, sep) != "" && Join(parts, sep)[0] == parts[0][0]
  {
  }

  lemma StripExactly(s: string, body: string)
    requires body == "" || (body[0] != 'v' && body[0] != 'V')
    ensures StripPrefix(s) == body <==> s == body || s == "v" + body || s == "V" + body || s == "vV" + body
  {
    if s == "vV" + body {
      assert s[1..] == "V" + body && s[1..][1..] == body;
    }
    if StripPrefix(s) == body {
      assert "v" <= s ==> s == "v" + s[1..];
      assert "V" <= s ==> s == "V" + s[1..];
      assert "v" <= s && "V" <= s[1..] ==> s == "vV" + s[2..];
    }
  }

  /** A string has ordinals exactly when it is a version, and they are the numbers it says. */
  lemma OrdinalsExactly(s: string, a: seq<int>)
    ensures OrdinalsOf(s) == Some(a) <==> IsVersion(s, a)
  {
    hide StripPrefix, SegmentOrdinals, Split, Join, IsNumeral;
    var stripped := StripPrefix(s);
    var parts := Split(stripped, '.');
    SplitExactly(stripped, '.', parts);
    SegmentsExactly(parts, a);
    if OrdinalsOf(s) == Some(a) {
      NumeralChars(parts[0], a[0]);
      JoinStarts(parts, '.');
      assert parts[0][0] in parts[0];
      StripExactly(s, stripped);
      assert stripped == "" + stripped;
      var prefix := if s == stripped then "" else if s == "v" + stripped then "v" else if s == "V" + stripped then "V" else "vV";
      assert VersionVia(s, a, prefix, parts);
    }
    if prefix, said :| VersionVia(s, a, prefix, said) {
      VersionIsRead(s, a, prefix, said);
    }
  }

  lemma VersionIsRead(s: string, a: seq<int>, prefix: string, parts: seq<string>)
    requires VersionVia(s, a, prefix, parts)
    ensures OrdinalsOf(s) == Some(a)
  {
    hide StripPrefix, SegmentOrdinals, Split, Join, IsNumeral;
    forall i | 0 <= i < |parts| ensures '.' !in parts[i] && parts[i] != "" {
      NumeralChars(parts[i], a[i]);
    }
    NumeralChars(parts[0], a[0]);
    JoinStarts(parts, '.');
    assert parts[0][0] in parts[0];
    assert "" + Join(parts, '.') == Join(parts, '.');
    StripExactly(s, Join(parts, '.'));
    SplitExactly(Join(parts, '.'), '.', parts);
    SegmentsExactly(parts, a);
  }

  /** The usual way to write a version: its numbers in decimal, joined by points. */
  function RenderVersion(a: seq<int>): string
    requires forall i :: 0 <= i < |a| ==> a[i] >= 0
  {
    Join(seq(|a|, i requires 0 <= i < |a| => Render(a[i])), '.')
  }

  /** Every list of 64-bit numbers is read back from its rendering, with and without a prefix. */
  lemma VersionRoundTrip(a: seq<int>)
    requires a != [] && forall i :: 0 <= i < |a| ==> 0 <= a[i] <= MAX_INT64
    ensures OrdinalsOf(RenderVersion(a)) == Some(a)
    ensures OrdinalsOf("v" + RenderVersion(a)) == Some(a) && OrdinalsOf("V" + RenderVersion(a)) == Some(a)
  {
    hide OrdinalsOf, Join, Render, IsNumeral;
    var parts := seq(|a|, i requires 0 <= i < |a| => Render(a[i]));
    forall i | 0 <= i < |a| ensures IsNumeral(parts[i], a[i]) {
      RenderIsNumeral(a[i]);
    }
    assert "" + RenderVersion(a) == RenderVersion(a);
    VersionIsRead(RenderVersion(a), a, "", parts);
    VersionIsRead("v" + RenderVersion(a), a, "v", parts);
    VersionIsRead("V" + RenderVersion(a), a, "V", parts);
  }

  method ParseVersionOrdinal(s: string) returns (r: Option<seq<int>>)
    ensures r == OrdinalsOf(s)
  {
    var stripped := StripPrefix(s);
    if stripped == "" {
      return None;
    }
    var parts := Split(stripped, '.');
    var out: seq<int> := [];
    for i := 0 to |parts|
      invariant SegmentOrdinals(parts[..i]) == Some(out)
    {
      assert parts[..i + 1][..i] == parts[..i];
      var n := Atoi(parts[i]);
      if n.None? || n.value < 0 {
        assert SegmentOrdinals(parts[..i + 1]).None?;
        SegmentOrdinalsPrefix(parts, i + 1);
        return None;
      }
      out := out + [n.value];
    }
    assert parts[..|parts|] == parts;
    return Some(out);
  }

  // ---- the order ----

  /** Segment i of an ordinal list extended with zeros. */
  function Segment(v: seq<int>, i: nat): int {
    if i < |v| then v[i] else 0
  }

  /** Lexicographic order on the zero-extended lists, decided at segment k. */
  ghost predicate LessAt(a: seq<int>, b: seq<int>, k: nat) {
    Segment(a, k) < Segment(b, k) && forall i :: 0 <= i < k ==> Segment(a, i) == Segment(b, i)
  }

  ghost predicate Less(a: seq<int>, b: seq<int>) {
    exists k :: LessAt(a, b, k)
  }

  ghost predicate Equal(a: seq<int>, b: seq<int>) {
    forall i: nat :: Segment(a, i) == Segment(b, i)
  }

  /** Compares segment by segment up to the longer length, missing segments counting as zero. */
  method CompareVersions(a: string, b: string) returns (cmp: int, ok: bool)
    ensures ok <==> OrdinalsOf(a).Some? && OrdinalsOf(b).Some?
    ensures ok ==> cmp in {-1, 0, 1}
    ensures ok ==> (cmp < 0 <==> Less(OrdinalsOf(a).value, OrdinalsOf(b).value))
    ensures ok ==> (cmp > 0 <==> Less(OrdinalsOf(b).value, OrdinalsOf(a).value))
    ensures ok ==> (cmp == 0 <==> Equal(OrdinalsOf(a).value, OrdinalsOf(b).value))
    ensures !ok ==> cmp == 0
  {
    var av := ParseVersionOrdinal(a);
    var bv := ParseVersionOrdinal(b);
    if av.None? || bv.None? {
      return 0, false;
    }
    var x, y := av.value, bv.value;
    OrderExclusive(x, y);
    OrderExclusive(y, x);
    var n := if |y| > |x| then |y| else |x|;
    for i := 0 to n
      invariant forall j :: 0 <= j < i ==> Segment(x, j) == Segment(y, j)
    {
      var p := if i < |x| then x[i] else 0;
      var q := if i < |y| then y[i] else 0;
      if p != q {
        if p < q {
          assert LessAt(x, y, i);
          return -1, true;
        }
        assert LessAt(y, x, i);
        return 1, true;
      }
    }
    return 0, true;
  }

  lemma LessAtExclusive(a: seq<int>, b: seq<int>, j: nat, k: nat)
    requires LessAt(a, b, j)
    ensures !LessAt(b, a, k)
  {
  }

  /** At most one of less, equal and greater holds. */
  lemma OrderExclusive(a: seq<int>, b: seq<int>)
    ensures Less(a, b) ==> !Less(b, a) && !Equal(a, b)
  {
    if j :| LessAt(a, b, j) {
      forall k ensures !LessAt(b, a, k) {
        LessAtExclusive(a, b, j, k);
      }
    }
  }

  /** The order is total and transitive: a total preorder, versions equal up to trailing zeros. */
  lemma OrderTotal(a: seq<int>, b: seq<int>)
    ensures Less(a, b) || Equal(a, b) || Less(b, a)
  {
    if !Equal(a, b) {
      var d: nat :| Segment(a, d) != Segment(b, d);
      var k := 0;
      while Segment(a, k) == Segment(b, k)
        invariant k <= d && forall i :: 0 <= i < k ==> Segment(a, i) == Segment(b, i)
        decreases d - k
      {
        k := k + 1;
      }
      assert LessAt(a, b, k) || LessAt(b, a, k);
    }
  }

  /** Later segments decide only between versions that agree before, and a missing one is a zero. */
  lemma OrderBySegment(a: seq<int>, b: seq<int>, c: seq<int>, x: int, y: int)
    ensures x < y ==> Less(a + [x] + b, a + [y] + c)
    ensures Equal(a, a + [0])
    ensures x > 0 ==> Less(a, a + [x] + b)
  {
    if x < y {
      assert LessAt(a + [x] + b, a + [y] + c, |a|);
    }
    if x > 0 {
      assert LessAt(a, a + [x] + b, |a|);
    }
  }

  lemma OrderTransitive(a: seq<int>, b: seq<int>, c: seq<int>)
    ensures Less(a, b) && Less(b, c) ==> Less(a, c)
    ensures Equal(a, b) && Less(b, c) ==> Less(a, c)
    ensures Less(a, b) && Equal(b, c) ==> Less(a, c)
    ensures Equal(a, b) && Equal(b, c) ==> Equal(a, c)
  {
    if Less(a, b) && Less(b, c) {
      var j: nat :| LessAt(a, b, j);
      var k: nat :| LessAt(b, c, k);
      assert LessAt(a, c, if j < k then j else k);
    } else if Equal(a, b) && Less(b, c) {
      var k: nat :| LessAt(b, c, k);
      assert LessAt(a, c, k);
    } else if Less(a, b) && Equal(b, c) {
      var k: nat :| LessAt(a, b, k);
      assert LessAt(a, c, k);
    }
  }

  /** Raising a minimum never makes a version below it acceptable. */
  lemma RaisingMinimumKeepsViolation(live: seq<int>, minimum: seq<int>, raised: seq<int>)
    requires Less(live, minimum) && !Less(raised, minimum)
    ensures Less(live, raised)
  {
    OrderTotal(minimum, raised);
    OrderTransitive(live, minimum, raised);
  }
}
