/**
 What the string helpers of Text compute, said without them: decimal numerals, lists
 joined by a separator, and text in any letter case with blanks around it.
 */
module Decimals {
  import opened Wrappers
  import opened Text

  // ---- numerals ----

  function Digit(d: nat): char
    requires d < 10
  {
    "0123456789"[d]
  }

  /** The usual decimal rendering: quotients and remainders by ten, no leading zero. */
  function Render(n: nat): (s: string)
    ensures s != ""
  {
    (if n < 10 then "" else Render(n / 10)) + [Digit(n % 10)]
  }

  function Zeros(k: nat): string {
    seq(k, _ => '0')
  }

  function Magnitude(n: int): nat {
    if n < 0 then -n else n
  }

  /** A numeral of n: a sign or none, leading zeros, and the rendering of its magnitude. */
  ghost predicate IsNumeral(s: string, n: int) {
    exists sign, zeros :: NumeralVia(s, n, sign, zeros)
  }

  ghost predicate NumeralVia(s: string, n: int, sign: string, zeros: nat) {
    && (sign == "" || sign == "+" || sign == "-")
    && (n > 0 ==> sign != "-") && (n < 0 ==> sign == "-")
    && s == sign + (Zeros(zeros) + Render(Magnitude(n)))
  }

  lemma ValueStep(s: string)
    requires s != "" && AllDigits(s)
    ensures DecimalValue(s) == DecimalValue(s[..|s| - 1]) * 10 + (s[|s| - 1] as int - '0' as int)
    ensures DecimalValue("") == 0
  {
  }

  lemma {:induction false} RenderDigits(n: nat)
    ensures AllDigits(Render(n)) && DecimalValue(Render(n)) == n
  {
    hide DecimalValue;
    var s := Render(n);
    if n >= 10 {
      RenderDigits(n / 10);
    }
    assert s[..|s| - 1] == if n < 10 then "" else Render(n / 10);
    assert s[|s| - 1] == Digit(n % 10);
    ValueStep(s);
  }

  lemma RenderStep(v: nat, d: nat)
    requires d < 10
    ensures Render(v * 10 + d) == if v == 0 then [Digit(d)] else Render(v) + [Digit(d)]
    ensures v == 0 ==> Render(v) == "0"
  {
    assert (v * 10 + d) / 10 == v && (v * 10 + d) % 10 == d;
  }

  lemma {:induction false} LeadingZeros(zeros: nat, s: string)
    requires AllDigits(s)
    ensures AllDigits(Zeros(zeros) + s) && DecimalValue(Zeros(zeros) + s) == DecimalValue(s)
    decreases zeros + |s|
  {
    var all := Zeros(zeros) + s;
    if s != "" {
      LeadingZeros(zeros, s[..|s| - 1]);
      assert all[..|all| - 1] == Zeros(zeros) + s[..|s| - 1];
    } else if zeros > 0 {
      LeadingZeros(zeros - 1, s);
      assert all[..|all| - 1] == Zeros(zeros - 1) + s;
    }
  }

  /** A string of digits is the rendering of its value after some zeros. */
  lemma {:induction false} DigitsAreNumeral(s: string) returns (zeros: nat)
    requires s != "" && AllDigits(s)
    ensures s == Zeros(zeros) + Render(DecimalValue(s))
    decreases |s|
  {
    hide DecimalValue, Render;
    var front, last := s[..|s| - 1], s[|s| - 1];
    var d := last as int - '0' as int;
    ValueStep(s);
    assert Digit(d) == last;
    assert s == front + [last];
    RenderStep(DecimalValue(front), d);
    if front == "" {
      zeros := 0;
    } else {
      zeros := DigitsAreNumeral(front);
      if DecimalValue(front) == 0 {
        assert front == Zeros(zeros + 1);
        zeros := zeros + 1;
      }
    }
  }

  lemma ReadIsNumeral(s: string, n: int)
    requires Atoi(s) == Some(n)
    ensures IsNumeral(s, n)
  {
    hide DecimalValue;
    var digits := Unsigned(s);
    var sign := if s[0] == '+' then "+" else if s[0] == '-' then "-" else "";
    var zeros := DigitsAreNumeral(digits);
    assert s == sign + digits;
    assert NumeralVia(s, n, sign, zeros);
  }

  lemma NumeralIsRead(s: string, n: int)
    requires IsNumeral(s, n)
    ensures Unsigned(s) != "" && AllDigits(Unsigned(s)) && Magnitude(n) == DecimalValue(Unsigned(s))
    ensures (n < 0 ==> s[0] == '-') && (n > 0 ==> s[0] != '-')
  {
    hide DecimalValue;
    var sign, zeros :| NumeralVia(s, n, sign, zeros);
    var digits := Zeros(zeros) + Render(Magnitude(n));
    RenderDigits(Magnitude(n));
    LeadingZeros(zeros, Render(Magnitude(n)));
    assert IsDigit(digits[0]);
    assert s[|sign|..] == digits;
  }

  /** Atoi reads exactly the numerals of the numbers that fit 64 bits. */
  lemma AtoiExactly(s: string, n: int)
    ensures Atoi(s) == Some(n) <==> IsNumeral(s, n) && -MAX_INT64 - 1 <= n <= MAX_INT64
  {
    hide DecimalValue, IsNumeral;
    if Atoi(s) == Some(n) {
      ReadIsNumeral(s, n);
    }
    if IsNumeral(s, n) && -MAX_INT64 - 1 <= n <= MAX_INT64 {
      NumeralIsRead(s, n);
    }
  }

  lemma RenderIsNumeral(n: int)
    requires n >= 0
    ensures IsNumeral(Render(n), n) && IsNumeral("+" + Render(n), n) && IsNumeral("-" + Render(n), -n)
  {
    hide Render;
    assert Zeros(0) + Render(n) == Render(n);
    assert "" + Render(n) == Render(n);
    assert NumeralVia(Render(n), n, "", 0) && NumeralVia("+" + Render(n), n, "+", 0) && NumeralVia("-" + Render(n), -n, "-", 0);
  }

  /** Every number that fits 64 bits is read back from its rendering. */
  lemma RenderRoundTrip(n: int)
    requires 0 <= n <= MAX_INT64
    ensures Atoi(Render(n)) == Some(n) && Atoi("+" + Render(n)) == Some(n) && Atoi("-" + Render(n)) == Some(-n)
  {
    hide Render, Atoi, IsNumeral;
    RenderIsNumeral(n);
    AtoiExactly(Render(n), n);
    AtoiExactly("+" + Render(n), n);
    AtoiExactly("-" + Render(n), -n);
  }

  // ---- joining ----

  /** The parts with the separator between any two. */
  function Join(parts: seq<string>, sep: char): string {
    if |parts| == 0 then "" else if |parts| == 1 then parts[0] else parts[0] + [sep] + Join(parts[1..], sep)
  }

  ghost predicate NoneHas(parts: seq<string>, sep: char) {
    forall i :: 0 <= i < |parts| ==> sep !in parts[i]
  }

  lemma JoinHead(c: char, parts: seq<string>, sep: char)
    requires parts != []
    ensures Join([[c] + parts[0]] + parts[1..], sep) == [c] + Join(parts, sep)
    ensures Join([""] + parts, sep) == [sep] + Join(parts, sep)
    ensures Join([""], sep) == ""
  {
    assert ([[c] + parts[0]] + parts[1..])[1..] == parts[1..];
    assert ([""] + parts)[1..] == parts;
  }

  lemma {:induction false} SplitJoin(s: string, sep: char)
    ensures Join(Split(s, sep), sep) == s && NoneHas(Split(s, sep), sep)
    decreases |s|
  {
    hide Join;
    if s == "" {
      JoinHead(sep, [""], sep);
    } else {
      SplitJoin(s[1..], sep);
      JoinHead(s[0], Split(s[1..], sep), sep);
      assert s == [s[0]] + s[1..];
    }
  }

  lemma {:induction false} JoinSplit(parts: seq<string>, sep: char)
    requires parts != [] && NoneHas(parts, sep)
    ensures Split(Join(parts, sep), sep) == parts
    decreases |parts|, |parts[0]|
  {
    hide Join, NoneHas;
    if parts == [""] {
      JoinHead(sep, parts, sep);
    } else if parts[0] == "" {
      NoneHasTail(parts, sep);
      JoinSplit(parts[1..], sep);
      JoinHead(sep, parts[1..], sep);
      assert [""] + parts[1..] == parts;
    } else {
      var shorter := [parts[0][1..]] + parts[1..];
      NoneHasTail(parts, sep);
      JoinSplit(shorter, sep);
      JoinHead(parts[0][0], shorter, sep);
      assert [parts[0][0]] + shorter[0] == parts[0];
      assert [parts[0]] + shorter[1..] == parts;
    }
  }

  lemma NoneHasTail(parts: seq<string>, sep: char)
    requires parts != [] && NoneHas(parts, sep)
    ensures NoneHas(parts[1..], sep)
    ensures parts[0] != "" ==> parts[0][0] != sep && NoneHas([parts[0][1..]] + parts[1..], sep)
  {
    if parts[0] != "" {
      assert parts[0][0] in parts[0];
      assert forall x :: x in parts[0][1..] ==> x in parts[0];
    }
  }

  /** Split is exactly the undoing of Join on parts free of the separator. */
  lemma SplitExactly(s: string, sep: char, parts: seq<string>)
    ensures Split(s, sep) == parts <==> parts != [] && NoneHas(parts, sep) && Join(parts, sep) == s
  {
    SplitJoin(s, sep);
    if parts != [] && NoneHas(parts, sep) && Join(parts, sep) == s {
      JoinSplit(parts, sep);
    }
  }

  // ---- letter case and blanks ----

  /** The blanks of ASCII text: a space, and the five controls from tab to carriage return. */
  predicate IsBlank(c: char) {
    c == ' ' || 9 <= c as int <= 13
  }

  ghost predicate AllSpaces(s: string) {
    forall i :: 0 <= i < |s| ==> IsBlank(s[i])
  }

  /** The same letter, in either case. */
  predicate SameLetter(c: char, lower: char) {
    c == lower || ('A' <= c <= 'Z' && c - 'A' + 'a' == lower)
  }

  predicate IsUpper(c: char) {
    'A' <= c <= 'Z'
  }

  predicate SameLetters(s: string, lower: string) {
    |s| == |lower| && forall i :: 0 <= i < |s| ==> !IsUpper(lower[i]) && SameLetter(s[i], lower[i])
  }

  /** raw is the text in any letter case, with blanks around it. */
  ghost predicate Spells(raw: string, text: string) {
    exists a: nat, b: nat :: SpellsAt(raw, text, a, b)
  }

  ghost predicate SpellsAt(raw: string, text: string, a: nat, b: nat) {
    && a <= b <= |raw|
    && AllSpaces(raw[..a]) && SameLetters(raw[a..b], text) && AllSpaces(raw[b..])
  }

  /** Nothing to trim. */
  predicate Trimmed(s: string) {
    s != "" ==> !IsBlank(s[0]) && !IsBlank(s[|s| - 1])
  }

  lemma {:induction false} TrimLeftSplits(s: string) returns (a: nat)
    ensures a <= |s| && TrimLeft(s) == s[a..] && AllSpaces(s[..a]) && (a < |s| ==> !IsBlank(s[a]))
  {
    if s != "" && IsSpace(s[0]) {
      var k := TrimLeftSplits(s[1..]);
      a := k + 1;
      assert s[a..] == s[1..][k..];
      assert s[..a] == [s[0]] + s[1..][..k];
    } else {
      a := 0;
    }
  }

  lemma {:induction false} TrimRightSplits(s: string) returns (b: nat)
    ensures b <= |s| && TrimRight(s) == s[..b] && AllSpaces(s[b..]) && (b > 0 ==> !IsBlank(s[b - 1]))
  {
    var n := |s|;
    if s != "" && IsSpace(s[n - 1]) {
      b := TrimRightSplits(s[..n - 1]);
      assert s[..b] == s[..n - 1][..b];
      assert s[b..] == s[..n - 1][b..] + [s[n - 1]];
    } else {
      b := n;
    }
  }

  lemma TrimSplits(s: string) returns (a: nat, b: nat)
    ensures a <= b <= |s| && TrimSpace(s) == s[a..b] && Trimmed(s[a..b])
    ensures AllSpaces(s[..a]) && AllSpaces(s[b..])
  {
    a := TrimLeftSplits(s);
    var k := TrimRightSplits(s[a..]);
    b := a + k;
    assert s[a..][..k] == s[a..b] && s[a..][k..] == s[b..];
  }

  /** There is only one way to part a string into blanks, a trimmed middle and blanks. */
  lemma TrimUnique(s: string, a: nat, b: nat, i: nat, j: nat)
    requires a <= b <= |s| && i <= j <= |s|
    requires AllSpaces(s[..a]) && AllSpaces(s[b..]) && Trimmed(s[a..b])
    requires AllSpaces(s[..i]) && AllSpaces(s[j..]) && Trimmed(s[i..j])
    ensures s[a..b] == s[i..j]
  {
    forall k | 0 <= k < a || b <= k < |s| ensures IsBlank(s[k]) {
      assert k < a ==> s[..a][k] == s[k];
      assert k >= b ==> s[b..][k - b] == s[k];
    }
    forall k | 0 <= k < i || j <= k < |s| ensures IsBlank(s[k]) {
      assert k < i ==> s[..i][k] == s[k];
      assert k >= j ==> s[j..][k - j] == s[k];
    }
    if a < b {
      assert s[a..b][0] == s[a] && s[a..b][b - a - 1] == s[b - 1];
    }
    if i < j {
      assert s[i..j][0] == s[i] && s[i..j][j - i - 1] == s[j - 1];
    }
  }

  lemma LowerLetter(s: string, t: string)
    ensures ToLower(s) == t <==> SameLetters(s, t)
  {
    if ToLower(s) == t {
      assert forall i :: 0 <= i < |s| ==> t[i] == ToLower(s)[i];
    }
  }

  lemma SameSpaces(s: string, t: string)
    requires SameLetters(s, t)
    ensures Trimmed(s) <==> Trimmed(t)
  {
  }

  /** Trimming and lower-casing give a trimmed text exactly when raw spells it. */
  lemma SpellsExactly(raw: string, text: string)
    requires Trimmed(text)
    ensures ToLower(TrimSpace(raw)) == text <==> Spells(raw, text)
  {
    hide TrimSpace, ToLower;
    var a, b := TrimSplits(raw);
    LowerLetter(raw[a..b], text);
    if ToLower(TrimSpace(raw)) == text {
      assert SpellsAt(raw, text, a, b);
    }
    if i: nat, j: nat :| SpellsAt(raw, text, i, j) {
      SameSpaces(raw[i..j], text);
      TrimUnique(raw, a, b, i, j);
    }
  }
}
