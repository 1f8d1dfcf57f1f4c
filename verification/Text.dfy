/** The string helpers of the HTTP parser and of the standard streams it uses. */
module Text {
  import opened Options

  const SIZE_MAX: nat := 0xFFFF_FFFF_FFFF_FFFF

  const CRLF: string := "\r\n"

  // ---------------------------------------------------------------- line ends

  predicate CrlfAt(s: string, i: nat) {
    i + 1 < |s| && s[i] == '\r' && s[i + 1] == '\n'
  }

  /** The first line end at or after `from`. */
  function FindCrlfFrom(s: string, from: nat): (r: Option<nat>)
    requires from <= |s|
    ensures r.Some? ==> from <= r.value && CrlfAt(s, r.value) && forall j :: from <= j < r.value ==> !CrlfAt(s, j)
    ensures r.None? ==> forall j :: from <= j ==> !CrlfAt(s, j)
    decreases |s| - from
  {
    if from + 1 >= |s| then None
    else if CrlfAt(s, from) then Some(from)
    else FindCrlfFrom(s, from + 1)
  }

  function FindCrlf(s: string): (r: Option<nat>)
    ensures r.Some? ==> CrlfAt(s, r.value) && forall j :: 0 <= j < r.value ==> !CrlfAt(s, j)
    ensures r.None? ==> forall j: nat :: !CrlfAt(s, j)
  {
    FindCrlfFrom(s, 0)
  }

  /** A line end already seen does not move when more bytes arrive, and a new one can begin at
      the last old byte at the earliest. */
  lemma FindCrlfExtended(a: string, b: string)
    ensures FindCrlf(a).Some? ==> FindCrlf(a + b) == FindCrlf(a)
    ensures FindCrlf(a).None? && FindCrlf(a + b).Some? ==> FindCrlf(a + b).value + 1 >= |a|
  {
    var w := a + b;
    forall j: nat | j + 1 < |a| ensures CrlfAt(w, j) <==> CrlfAt(a, j) {
    }
    if FindCrlf(a).Some? {
      assert CrlfAt(w, FindCrlf(a).value);
    } else if FindCrlf(w).Some? {
      assert CrlfAt(w, FindCrlf(w).value);
      assert !CrlfAt(a, FindCrlf(w).value);
    }
  }

  // ---------------------------------------------------------------- trim

  /** The characters `trim` strips. */
  predicate IsBlank(c: char) {
    c == ' ' || c == '\t' || c == '\r' || c == '\n'
  }

  function TrimLeft(s: string): string {
    if s != "" && IsBlank(s[0]) then TrimLeft(s[1..]) else s
  }

  function TrimRight(s: string): string {
    if s != "" && IsBlank(s[|s| - 1]) then TrimRight(s[..|s| - 1]) else s
  }

  /** `trim`: the part from the first to the last character that is not blank. */
  function Trim(s: string): string {
    TrimRight(TrimLeft(s))
  }

  /** Tab, line feed, carriage return and space, by their codes. */
  const BLANK_CODES: set<int> := {9, 10, 13, 32}

  predicate AllBlank(s: string) {
    forall i :: 0 <= i < |s| ==> s[i] as int in BLANK_CODES
  }

  /** Not empty, and without blanks at its ends. */
  predicate Trimmed(s: string) {
    s != "" && s[0] as int !in BLANK_CODES && s[|s| - 1] as int !in BLANK_CODES
  }

  lemma {:induction false} TrimLeftSplits(s: string) returns (left: string)
    ensures s == left + TrimLeft(s) && AllBlank(left)
    ensures TrimLeft(s) != "" ==> TrimLeft(s)[0] as int !in BLANK_CODES
  {
    left := "";
    if s != "" && IsBlank(s[0]) {
      var more := TrimLeftSplits(s[1..]);
      left := [s[0]] + more;
    }
  }

  lemma {:induction false} TrimRightSplits(s: string) returns (right: string)
    ensures s == TrimRight(s) + right && AllBlank(right)
    ensures TrimRight(s) != "" ==> TrimRight(s)[|TrimRight(s)| - 1] as int !in BLANK_CODES
    ensures TrimRight(s) <= s
  {
    right := "";
    if s != "" && IsBlank(s[|s| - 1]) {
      var more := TrimRightSplits(s[..|s| - 1]);
      right := more + [s[|s| - 1]];
    }
  }

  /** `trim` removes blanks at both ends, all of them, and nothing else. */
  lemma TrimSplits(s: string) returns (left: string, right: string)
    ensures s == left + Trim(s) + right && AllBlank(left) && AllBlank(right)
    ensures Trim(s) != "" ==> Trimmed(Trim(s))
  {
    left := TrimLeftSplits(s);
    right := TrimRightSplits(TrimLeft(s));
  }

  // ---------------------------------------------------------------- case-insensitive comparison

  function ToLower(c: char): char {
    if 'A' <= c <= 'Z' then c - 'A' + 'a' else c
  }

  /** `iequals`. */
  predicate IEquals(a: string, b: string)
    ensures IEquals(a, b) ==> |a| == |b|
  {
    |a| == |b| && (a == "" || (ToLower(a[0]) == ToLower(b[0]) && IEquals(a[1..], b[1..])))
  }

  /** `small` is the small form of the ASCII letter `capital`. */
  predicate CapitalOf(capital: char, small: char) {
    65 <= capital as int <= 90 && small as int == capital as int + 32
  }

  predicate SameButCase(c: char, d: char) {
    c == d || CapitalOf(c, d) || CapitalOf(d, c)
  }

  /** The strings differ at most in the case of ASCII letters. */
  predicate VariantOf(a: string, b: string) {
    |a| == |b| && forall i :: 0 <= i < |a| ==> SameButCase(a[i], b[i])
  }

  lemma ToLowerIff(c: char, d: char)
    ensures ToLower(c) == ToLower(d) <==> SameButCase(c, d)
  {
  }

  /** `iequals` is equality up to the case of ASCII letters, position by position. */
  lemma {:induction false} IEqualsIff(a: string, b: string)
    ensures IEquals(a, b) <==> VariantOf(a, b)
  {
    if |a| == |b| && a != "" {
      IEqualsIff(a[1..], b[1..]);
      ToLowerIff(a[0], b[0]);
      if VariantOf(a, b) {
        forall i | 0 <= i < |a[1..]| ensures SameButCase(a[1..][i], b[1..][i]) {
          assert a[1..][i] == a[i + 1] && b[1..][i] == b[i + 1];
        }
      } else if SameButCase(a[0], b[0]) {
        var i :| 0 <= i < |a| && !SameButCase(a[i], b[i]);
        assert a[1..][i - 1] == a[i] && b[1..][i - 1] == b[i];
      }
    }
  }

  // ---------------------------------------------------------------- decimal numbers

  predicate IsDigit(c: char) {
    '0' <= c <= '9'
  }

  predicate AllDigits(s: string) {
    forall i :: 0 <= i < |s| ==> IsDigit(s[i])
  }

  function Digit(c: char): nat
    requires IsDigit(c)
  {
    c as int - '0' as int
  }

  function DecimalValue(s: string): nat
    requires AllDigits(s)
  {
    if s == "" then 0 else 10 * DecimalValue(s[..|s| - 1]) + Digit(s[|s| - 1])
  }

  /** `parse_size`: decimal digits only, all of them, and a value that fits `size_t`. */
  function ParseSize(s: string): (r: Option<nat>)
    ensures r.Some? ==> r.value <= SIZE_MAX
  {
    if s != "" && AllDigits(s) && DecimalValue(s) <= SIZE_MAX then Some(DecimalValue(s)) else None
  }

  /** `std::to_string` of an unsigned value. */
  function ToDecimal(n: nat): (s: string)
    ensures s != "" && AllDigits(s)
  {
    var last := (n % 10) as char + '0';
    if n < 10 then [last] else ToDecimal(n / 10) + [last]
  }

  lemma {:induction false} DecimalRoundTrip(n: nat)
    ensures DecimalValue(ToDecimal(n)) == n
  {
    var s := ToDecimal(n);
    if n >= 10 {
      DecimalRoundTrip(n / 10);
      assert s[..|s| - 1] == ToDecimal(n / 10);
    } else {
      assert s[..|s| - 1] == "";
    }
  }

  /** `parse_size` reads back every number that `std::to_string` can print. */
  lemma ParseSizeRoundTrip(n: nat)
    ensures ParseSize(ToDecimal(n)) == if n <= SIZE_MAX then Some(n) else None
  {
    DecimalRoundTrip(n);
  }

  function Zeros(n: nat): string {
    seq(n, _ => '0')
  }

  /** `s` is a way to write `n` in decimal digits: leading zeros are allowed. */
  ghost predicate Numeral(s: string, n: nat) {
    exists zeros: nat :: s == Zeros(zeros) + ToDecimal(n)
  }

  lemma {:induction false} LeadingZeros(zeros: nat, s: string)
    requires AllDigits(s) && s != ""
    ensures AllDigits(Zeros(zeros) + s) && DecimalValue(Zeros(zeros) + s) == DecimalValue(s)
    decreases |s|
  {
    var t, last := s[..|s| - 1], s[|s| - 1];
    var w := Zeros(zeros) + s;
    assert w[..|w| - 1] == Zeros(zeros) + t;
    if t == "" {
      assert w[..|w| - 1] == Zeros(zeros);
      OnlyZeros(zeros);
    } else {
      LeadingZeros(zeros, t);
    }
  }

  lemma {:induction false} OnlyZeros(zeros: nat)
    ensures AllDigits(Zeros(zeros)) && DecimalValue(Zeros(zeros)) == 0
  {
    if zeros > 0 {
      OnlyZeros(zeros - 1);
      assert Zeros(zeros)[..zeros - 1] == Zeros(zeros - 1);
    }
  }

  lemma {:induction false} DigitsAreNumeral(s: string) returns (zeros: nat)
    requires AllDigits(s) && s != ""
    ensures s == Zeros(zeros) + ToDecimal(DecimalValue(s))
  {
    var t, last := s[..|s| - 1], s[|s| - 1];
    assert s == t + [last];
    if t == "" {
      zeros := 0;
    } else {
      zeros := DigitsAreNumeral(t);
      if DecimalValue(t) == 0 {
        zeros := zeros + 1;
        assert Zeros(zeros) == t;
      } else {
        assert ToDecimal(DecimalValue(s)) == ToDecimal(DecimalValue(t)) + [last];
      }
    }
  }

  /** `parse_size` accepts exactly the decimal numerals, at least one digit long, of the values that
      fit `size_t`. */
  lemma ParseSizeIff(s: string, n: nat)
    ensures ParseSize(s) == Some(n) <==> n <= SIZE_MAX && Numeral(s, n)
  {
    if ParseSize(s) == Some(n) {
      var zeros := DigitsAreNumeral(s);
    }
    if Numeral(s, n) {
      var zeros: nat :| s == Zeros(zeros) + ToDecimal(n);
      LeadingZeros(zeros, ToDecimal(n));
      DecimalRoundTrip(n);
    }
  }

  // ---------------------------------------------------------------- words

  /** `std::isspace` in the classic locale, which is what `>>` skips. */
  predicate IsSpace(c: char) {
    c == ' ' || ('\t' <= c <= '\r')
  }

  function WordLength(s: string): (n: nat)
    ensures n <= |s|
    ensures forall i :: 0 <= i < n ==> !IsSpace(s[i])
    ensures n < |s| ==> IsSpace(s[n])
  {
    if s == "" || IsSpace(s[0]) then 0 else 1 + WordLength(s[1..])
  }

  /** The words that repeated `input >> word` extracts. */
  function Words(s: string): seq<string>
    decreases |s|
  {
    if s == "" then []
    else if IsSpace(s[0]) then Words(s[1..])
    else
      var n := WordLength(s);
      [s[..n]] + Words(s[n..])
  }

  /** Tab, line feed, vertical tab, form feed, carriage return and space, by their codes. */
  const SPACE_CODES: set<int> := {9, 10, 11, 12, 13, 32}

  predicate IsWord(s: string) {
    s != "" && forall i :: 0 <= i < |s| ==> s[i] as int !in SPACE_CODES
  }

  predicate AllSpace(s: string) {
    forall i :: 0 <= i < |s| ==> s[i] as int in SPACE_CODES
  }

  lemma SpaceIff(c: char)
    ensures IsSpace(c) <==> c as int in SPACE_CODES
  {
  }

  lemma WordIff(s: string)
    ensures IsWord(s) <==> s != "" && forall i :: 0 <= i < |s| ==> !IsSpace(s[i])
  {
    forall i | 0 <= i < |s| ensures IsSpace(s[i]) <==> s[i] as int in SPACE_CODES {
      SpaceIff(s[i]);
    }
  }

  /** White space in front is skipped. */
  lemma {:induction false} WordsSkip(blank: string, rest: string)
    requires AllSpace(blank)
    ensures Words(blank + rest) == Words(rest)
  {
    if blank == "" {
      assert blank + rest == rest;
    } else {
      SpaceIff(blank[0]);
      assert (blank + rest)[1..] == blank[1..] + rest;
      WordsSkip(blank[1..], rest);
    }
  }

  /** A word is extracted whole, whatever white space is around it, and extraction goes on behind
      that. */
  lemma WordsSplit(before: string, word: string, blank: string, rest: string)
    requires AllSpace(before) && IsWord(word) && AllSpace(blank) && blank != ""
    ensures Words(before + (word + (blank + rest))) == [word] + Words(rest)
  {
    var tail := blank + rest;
    var s := word + tail;
    WordsSkip(before, s);
    WordsSkip(blank, rest);
    WordIff(word);
    SpaceIff(blank[0]);
    assert s[|word|] == blank[0] && forall i :: 0 <= i < |word| ==> s[i] == word[i];
    assert WordLength(s) == |word|;
    assert s[..|word|] == word && s[|word|..] == tail;
  }

  /** A word followed by one space. */
  lemma WordsSpaced(word: string, rest: string)
    requires IsWord(word)
    ensures Words(word + " " + rest) == [word] + Words(rest)
  {
    WordsSplit("", word, " ", rest);
    assert "" + (word + (" " + rest)) == word + " " + rest;
  }

  lemma WordsSingle(word: string)
    requires IsWord(word)
    ensures Words(word) == [word]
  {
    WordIff(word);
    assert WordLength(word) == |word|;
    assert word[..|word|] == word && word[|word|..] == "";
  }

  // ---------------------------------------------------------------- search

  /** `line.find(':')`. */
  function FindColon(s: string): (r: Option<nat>)
    ensures r.Some? ==> r.value < |s| && s[r.value] == ':'
  {
    if s == "" then None
    else if s[0] == ':' then Some(0)
    else
      match FindColon(s[1..])
      case None => None
      case Some(i) => Some(i + 1)
  }

  /** The colon found is the first one. */
  lemma {:induction false} FindColonIsFirst(s: string)
    ensures match FindColon(s)
      case None => ':' !in s
      case Some(i) => i < |s| && s[i] == ':' && ':' !in s[..i]
  {
    if s != "" && s[0] != ':' {
      FindColonIsFirst(s[1..]);
      assert s == [s[0]] + s[1..];
      if FindColon(s).Some? {
        var i := FindColon(s).value;
        assert s[..i] == [s[0]] + s[1..][..i - 1];
      }
    }
  }
}
