/** String helpers with the meaning Python gives them in the bot: strip,
    lstrip/rstrip of a character, lower, split, join, isdigit, int() and str()
    of integers. Only ASCII letters, digits and whitespace are modelled. */
module Text {
  import opened Wrappers

  /** The ASCII characters that Python's str.strip() and int() skip as whitespace. */
  predicate IsSpace(c: char) {
    c == ' ' || c == '\t' || c == '\n' || c == '\r' || c == '\U{B}' || c == '\U{C}'
    || c == '\U{1C}' || c == '\U{1D}' || c == '\U{1E}' || c == '\U{1F}'
  }

  /** s.lstrip(...): drops the leading characters that `drop` accepts. */
  function LStrip(s: string, drop: char -> bool): (r: string)
    ensures |r| <= |s| && r == s[|s| - |r|..]
    ensures r == [] || !drop(r[0])
    ensures forall i :: 0 <= i < |s| - |r| ==> drop(s[i])
  {
    if s != [] && drop(s[0]) then
      var r := LStrip(s[1..], drop);
      assert forall i :: 1 <= i < |s| - |r| ==> s[i] == s[1..][i - 1];
      r
    else s
  }

  /** s.rstrip(...): drops the trailing characters that `drop` accepts. */
  function RStrip(s: string, drop: char -> bool): (r: string)
    ensures |r| <= |s| && r == s[..|r|]
    ensures r == [] || !drop(r[|r| - 1])
    ensures forall i :: |r| <= i < |s| ==> drop(s[i])
  {
    if s != [] && drop(s[|s| - 1]) then RStrip(s[..|s| - 1], drop) else s
  }

  /** Nothing but whitespace, or nothing at all. */
  predicate Blank(s: string) {
    forall i :: 0 <= i < |s| ==> IsSpace(s[i])
  }

  /** No whitespace at either end. */
  predicate Trimmed(s: string) {
    s == [] || (!IsSpace(s[0]) && !IsSpace(s[|s| - 1]))
  }

  /** r is s[i..j], with only whitespace before i and after j. */
  predicate TrimsAt(s: string, r: string, i: int, j: int) {
    0 <= i <= j <= |s| && r == s[i..j] && Blank(s[..i]) && Blank(s[j..])
  }

  /** r is s with whitespace, and only whitespace, cut off both ends. */
  ghost predicate Trims(s: string, r: string) {
    exists i, j :: TrimsAt(s, r, i, j)
  }

  /** s.strip() */
  function Strip(s: string): (r: string)
    ensures |r| <= |s| && Trimmed(r) && Trims(s, r)
    ensures r == [] <==> Blank(s)
  {
    var l := LStrip(s, IsSpace);
    var r := RStrip(l, IsSpace);
    StripShape(s, l, r);
    r
  }

  /** Cutting a whitespace prefix and then a whitespace suffix leaves a trimmed
      middle piece of s. */
  lemma StripShape(s: string, l: string, r: string)
    requires |l| <= |s| && l == s[|s| - |l|..]
    requires l == [] || !IsSpace(l[0])
    requires forall k :: 0 <= k < |s| - |l| ==> IsSpace(s[k])
    requires |r| <= |l| && r == l[..|r|]
    requires r == [] || !IsSpace(r[|r| - 1])
    requires forall k :: |r| <= k < |l| ==> IsSpace(l[k])
    ensures Trimmed(r) && TrimsAt(s, r, |s| - |l|, |s| - |l| + |r|)
    ensures r == [] <==> Blank(s)
  {
    var i := |s| - |l|;
    if l != [] {
      assert l[0] == s[i] && !IsSpace(l[0]);
      assert r != [];
      assert r[0] == l[0];
    }
    forall k | 0 <= k < i ensures IsSpace(s[..i][k]) {
      assert s[..i][k] == s[k];
    }
    var j := i + |r|;
    forall k | 0 <= k < |s| - j ensures IsSpace(s[j..][k]) {
      assert s[j..][k] == l[|r| + k];
    }
    assert r == s[i..j];
  }

  /** The contract of Strip leaves one possible result: any r cut from s with only
      whitespace around it, no whitespace at its ends, and empty only for blank s,
      is s.strip(). */
  lemma StripUnique(s: string, r: string)
    requires Trims(s, r) && Trimmed(r) && (r == [] <==> Blank(s))
    ensures r == Strip(s)
  {
    var q := Strip(s);
    if r != [] {
      var i, j :| TrimsAt(s, r, i, j);
      var i', j' :| TrimsAt(s, q, i', j');
      SameCut(s, r, q, i, j, i', j');
    }
  }

  /** Two non-empty trimmed cuts of s with only whitespace around them are the
      same cut. */
  lemma SameCut(s: string, r: string, q: string, i: int, j: int, i': int, j': int)
    requires TrimsAt(s, r, i, j) && TrimsAt(s, q, i', j')
    requires Trimmed(r) && Trimmed(q) && r != [] && q != []
    ensures r == q
  {
    assert r[0] == s[i] && r[|r| - 1] == s[j - 1];
    assert q[0] == s[i'] && q[|q| - 1] == s[j' - 1];
    forall k | 0 <= k < i ensures IsSpace(s[k]) {
      assert s[..i][k] == s[k];
    }
    forall k | 0 <= k < i' ensures IsSpace(s[k]) {
      assert s[..i'][k] == s[k];
    }
    forall k | j <= k < |s| ensures IsSpace(s[k]) {
      assert s[j..][k - j] == s[k];
    }
    forall k | j' <= k < |s| ensures IsSpace(s[k]) {
      assert s[j'..][k - j'] == s[k];
    }
    assert i == i' && j == j';
  }

  /** Stripping keeps only characters of the original. */
  lemma StripChars(s: string)
    ensures forall c :: c in Strip(s) ==> c in s
  {
    var l := LStrip(s, IsSpace);
    var r := RStrip(l, IsSpace);
    forall i | 0 <= i < |r| ensures r[i] in s {
      assert r[i] == l[i] == s[|s| - |l| + i];
    }
  }

  /** Stripping twice strips nothing more. */
  lemma StripIdempotent(s: string)
    ensures Strip(Strip(s)) == Strip(s)
  {
    var r := Strip(s);
    assert LStrip(r, IsSpace) == r;
    assert RStrip(r, IsSpace) == r;
  }

  lemma StripNoSpace(s: string)
    requires forall i :: 0 <= i < |s| ==> !IsSpace(s[i])
    ensures Strip(s) == s
  {
  }

  function LowerChar(c: char): char {
    if 'A' <= c <= 'Z' then (c as int + 32) as char else c
  }

  /** s.lower(), for ASCII letters */
  function Lower(s: string): (r: string)
    ensures |r| == |s| && forall i :: 0 <= i < |s| ==> r[i] == LowerChar(s[i])
  {
    seq(|s|, i requires 0 <= i < |s| => LowerChar(s[i]))
  }

  /** Lower-casing twice changes nothing more. */
  lemma LowerIdempotent(s: string)
    ensures Lower(Lower(s)) == Lower(s)
  {
    assert forall i :: 0 <= i < |s| ==> LowerChar(LowerChar(s[i])) == LowerChar(s[i]);
  }

  predicate IsDigit(c: char) {
    '0' <= c <= '9'
  }

  /** Not a single digit anywhere in s. */
  predicate NoDigit(s: string) {
    forall i :: 0 <= i < |s| ==> !IsDigit(s[i])
  }

  /** s.isdigit(): non-empty, and every character a digit. */
  predicate IsDigits(s: string) {
    |s| > 0 && forall i :: 0 <= i < |s| ==> IsDigit(s[i])
  }

  /** The two bases int() is called with in the bot. */
  type Base = b: nat | b == 10 || b == 16 witness 10

  predicate IsDigitIn(c: char, base: Base) {
    IsDigit(c) || (base == 16 && ('a' <= c <= 'f' || 'A' <= c <= 'F'))
  }

  function DigitValue(c: char): nat {
    if IsDigit(c) then c as int - '0' as int
    else if 'a' <= c <= 'f' then c as int - 'a' as int + 10
    else if 'A' <= c <= 'F' then c as int - 'A' as int + 10
    else 0
  }

  function DigitChar(d: nat): (c: char)
    requires d < 16
    ensures IsDigitIn(c, 16) && DigitValue(c) == d && (d < 10 <==> IsDigit(c))
  {
    if d < 10 then ('0' as int + d) as char else ('a' as int + d - 10) as char
  }

  /** The value of a numeral, most significant digit first. */
  function DigitsValue(s: string, base: Base): nat {
    if s == [] then 0 else DigitsValue(s[..|s| - 1], base) * base + DigitValue(s[|s| - 1])
  }

  /** The numeral of n in the given base, without leading zeros (str(n) for base 10). */
  function NatToDigits(n: nat, base: Base): (r: string)
    ensures |r| > 0 && forall i :: 0 <= i < |r| ==> IsDigitIn(r[i], base)
    ensures DigitsValue(r, base) == n
    decreases n
  {
    if n < base then [DigitChar(n)]
    else
      var r := NatToDigits(n / base, base) + [DigitChar(n % base)];
      assert r[..|r| - 1] == NatToDigits(n / base, base);
      r
  }

  function NatToString(n: nat): (r: string)
    ensures IsDigits(r)
  {
    NatToDigits(n, 10)
  }

  /** str(n) */
  function IntToString(n: int): string {
    if n < 0 then "-" + NatToString(-n) else NatToString(n)
  }

  /** Two numerals print the same only when they are the same number. */
  lemma NatToStringInjective(m: nat, n: nat)
    requires NatToString(m) == NatToString(n)
    ensures m == n
  {
    assert DigitsValue(NatToString(m), 10) == m;
  }

  /** A numeral holds only digits and, for a negative number, its leading minus. */
  lemma NumeralChars(n: int)
    ensures forall c :: c in IntToString(n) ==> IsDigit(c) || c == '-'
  {
    var d := NatToString(if n < 0 then -n else n);
    assert forall i :: 0 <= i < |d| ==> IsDigit(d[i]);
  }

  lemma IntToStringInjective(m: int, n: int)
    requires IntToString(m) == IntToString(n)
    ensures m == n
  {
    var s := IntToString(m);
    assert (s[0] == '-') == (m < 0);
    assert (s[0] == '-') == (n < 0);
    if m < 0 {
      assert s[1..] == NatToString(-m) == NatToString(-n);
      NatToStringInjective(-m, -n);
    } else {
      NatToStringInjective(m, n);
    }
  }

  /** Leading zeros do not change the value of a numeral: int("007") == int("7"). */
  lemma {:induction false} LeadingZero(s: string, base: Base)
    ensures DigitsValue("0" + s, base) == DigitsValue(s, base)
    decreases |s|
  {
    if s != [] {
      assert ("0" + s)[..|"0" + s| - 1] == "0" + s[..|s| - 1];
      LeadingZero(s[..|s| - 1], base);
    }
  }

  /** n as a numeral of at least `width` digits, padded with zeros (strftime's %H, %m, %Y). */
  function Pad(n: nat, width: nat): (r: string)
    ensures |r| >= width && DigitsValue(r, 10) == n
    ensures forall i :: 0 <= i < |r| ==> IsDigit(r[i])
    ensures |NatToString(n)| <= width ==> |r| == width
    decreases width
  {
    if |NatToString(n)| >= width then NatToString(n)
    else
      var r := "0" + Pad(n, width - 1);
      LeadingZero(Pad(n, width - 1), 10);
      r
  }

  /** A number below 100 has at most two digits, so Pad(n, 2) is exactly two long. */
  lemma ShortNumeral(n: nat)
    requires n < 100
    ensures |NatToString(n)| <= 2
  {
    if n >= 10 {
      assert NatToDigits(n, 10) == NatToDigits(n / 10, 10) + [DigitChar(n % 10)];
    }
  }

  // ---------------------------------------------------------------- int()

  /** The digits of a numeral as int() accepts them: digits of the base, where a
      single underscore may stand between two digits. */
  predicate IsGrouped(s: string, base: Base) {
    && |s| > 0 && IsDigitIn(s[0], base) && IsDigitIn(s[|s| - 1], base)
    && (forall i :: 0 <= i < |s| ==> IsDigitIn(s[i], base) || s[i] == '_')
    && (forall i, j :: 0 <= i < |s| && 0 <= j < |s| && j == i + 1 && s[i] == '_' ==> IsDigitIn(s[j], base))
  }

  function DropUnderscores(s: string): (r: string)
    ensures forall i :: 0 <= i < |r| ==> r[i] != '_'
  {
    if s == [] then []
    else DropUnderscores(s[..|s| - 1]) + (if s[|s| - 1] == '_' then [] else [s[|s| - 1]])
  }

  lemma {:induction false} DropNoUnderscores(s: string)
    requires forall i :: 0 <= i < |s| ==> s[i] != '_'
    ensures DropUnderscores(s) == s
  {
    if s != [] {
      DropNoUnderscores(s[..|s| - 1]);
    }
  }

  /** The digits after a base-16 "0x" prefix, which may start with one underscore. */
  function AfterHexPrefix(s: string): string {
    if |s| > 0 && s[0] == '_' then s[1..] else s
  }

  predicate HasHexPrefix(s: string) {
    |s| >= 2 && s[0] == '0' && (s[1] == 'x' || s[1] == 'X')
  }

  /** int(s, base), or None where Python raises ValueError: surrounding whitespace
      is ignored, one sign is allowed, digits may be grouped with underscores, and
      in base 16 a "0x" prefix is skipped. */
  function PyInt(s: string, base: Base): (r: Option<int>)
    ensures r.Some? ==> HasDigitIn(s, base)
  {
    var t := Strip(s);
    var digits := Numeral(Unsigned(t), base);
    if IsGrouped(digits, base) then
      GroupedHasDigit(s, base);
      var n: int := DigitsValue(DropUnderscores(digits), base);
      Some(if |t| > 0 && t[0] == '-' then -n else n)
    else None
  }

  /** Some character of s is a digit of the base. */
  predicate HasDigitIn(s: string, base: Base) {
    exists i :: 0 <= i < |s| && IsDigitIn(s[i], base)
  }

  /** A numeral that int() accepts has a first digit, and that digit, or the "0"
      of a "0x" prefix, is a character of the text. */
  lemma GroupedHasDigit(s: string, base: Base)
    requires IsGrouped(Numeral(Unsigned(Strip(s)), base), base)
    ensures HasDigitIn(s, base)
  {
    var t := Strip(s);
    StripChars(s);
    var u := Unsigned(t);
    var c := if base == 16 && HasHexPrefix(u) then u[0] else u[0];
    assert IsDigitIn(c, base);
    assert c in t;
    var i :| 0 <= i < |s| && s[i] == c;
  }

  /** int(s) rejects text with no decimal digit in it. */
  lemma PyIntNeedsDigit(s: string)
    requires NoDigit(s)
    ensures PyInt(s, 10).None?
  {
    assert !HasDigitIn(s, 10);
  }

  /** The text after one leading sign. */
  function Unsigned(t: string): string {
    if |t| > 0 && (t[0] == '+' || t[0] == '-') then t[1..] else t
  }

  /** The digits of an unsigned numeral, after any base-16 prefix. */
  function Numeral(u: string, base: Base): string {
    if base == 16 && HasHexPrefix(u) then AfterHexPrefix(u[2..]) else u
  }

  /** int() reads a numeral of the base, bare or after a minus sign, as its value
      (a numeral that starts "0x" is excluded: base 16 would skip it as a prefix). */
  lemma PyIntOfSigned(negative: bool, d: string, base: Base)
    requires |d| > 0 && (forall i :: 0 <= i < |d| ==> IsDigitIn(d[i], base)) && !HasHexPrefix(d)
    ensures var v: int := DigitsValue(d, base);
            PyInt((if negative then "-" else "") + d, base) == Some(if negative then -v else v)
  {
    var s := (if negative then "-" else "") + d;
    SignedNoSpace(s, d, base);
    StripNoSpace(s);
    SignOf(negative, d, base);
    assert Numeral(d, base) == d;
    PyIntOfClean(s, d, base);
  }

  lemma SignOf(negative: bool, d: string, base: Base)
    requires |d| > 0 && IsDigitIn(d[0], base)
    ensures var s := (if negative then "-" else "") + d;
            Unsigned(s) == d && (|s| > 0 && s[0] == '-') == negative
  {
    var s := (if negative then "-" else "") + d;
    if negative { assert s[1..] == d; } else { assert s == d; }
  }

  lemma PyIntOfClean(s: string, d: string, base: Base)
    requires |d| > 0 && (forall i :: 0 <= i < |d| ==> IsDigitIn(d[i], base))
    requires Strip(s) == s && Numeral(Unsigned(s), base) == d
    ensures var v: int := DigitsValue(d, base);
            PyInt(s, base) == Some(if |s| > 0 && s[0] == '-' then -v else v)
  {
    NumeralGrouped(d, base);
  }

  /** int(str(n)) == n */
  lemma PyIntOfIntToString(n: int)
    ensures PyInt(IntToString(n), 10) == Some(n)
  {
    var m: nat := if n < 0 then -n else n;
    var d := NatToString(m);
    DecimalNotHex(d);
    PyIntOfSigned(n < 0, d, 10);
    var s := IntToString(n);
    assert s == (if n < 0 then "-" else "") + d;
  }

  lemma DecimalNotHex(d: string)
    requires IsDigits(d)
    ensures !HasHexPrefix(d) && forall i :: 0 <= i < |d| ==> IsDigitIn(d[i], 10)
  {
    if |d| >= 2 { assert IsDigit(d[1]); }
  }

  lemma SignedNoSpace(s: string, d: string, base: Base)
    requires forall i :: 0 <= i < |d| ==> IsDigitIn(d[i], base)
    requires s == d || s == "-" + d
    ensures forall i :: 0 <= i < |s| ==> !IsSpace(s[i])
  {
    forall i | 0 <= i < |s| ensures !IsSpace(s[i]) {
      if s != d && i > 0 { assert s[i] == d[i - 1]; }
    }
  }

  lemma NumeralGrouped(d: string, base: Base)
    requires |d| > 0 && forall i :: 0 <= i < |d| ==> IsDigitIn(d[i], base)
    ensures IsGrouped(d, base) && DropUnderscores(d) == d
  {
    DropNoUnderscores(d);
  }

  // ---------------------------------------------------------------- split and join

  /** s.split(sep) for a one-character separator. */
  function Split(s: string, sep: char): (r: seq<string>)
    ensures |r| >= 1
    ensures forall i :: 0 <= i < |r| ==> sep !in r[i]
  {
    if s == [] then [""]
    else
      var rest := Split(s[1..], sep);
      if s[0] == sep then [""] + rest else [[s[0]] + rest[0]] + rest[1..]
  }

  /** sep.join(parts) */
  function Join(parts: seq<string>, sep: string): string {
    if |parts| == 0 then ""
    else if |parts| == 1 then parts[0]
    else parts[0] + sep + Join(parts[1..], sep)
  }

  /** Joining the pieces of a split with the separator gives back the string. */
  lemma {:induction false} JoinSplit(s: string, sep: char)
    ensures Join(Split(s, sep), [sep]) == s
  {
    if s != [] {
      var rest := Split(s[1..], sep);
      JoinSplit(s[1..], sep);
      if s[0] != sep && |rest| > 1 {
        assert Join(rest, [sep]) == rest[0] + [sep] + Join(rest[1..], [sep]);
      }
    }
  }

  /** Splitting a string that holds no separator gives the string itself. */
  lemma {:induction false} SplitNone(x: string, sep: char)
    requires sep !in x
    ensures Split(x, sep) == [x]
  {
    if x != [] {
      assert x[0] != sep && sep !in x[1..];
      SplitNone(x[1..], sep);
      assert [x[0]] + x[1..] == x;
    }
  }

  /** A prefix free of the separator sticks to the first piece. */
  lemma {:induction false} SplitPrefix(x: string, y: string, sep: char)
    requires sep !in x
    ensures Split(x + y, sep) == [x + Split(y, sep)[0]] + Split(y, sep)[1..]
  {
    if x != [] {
      assert sep !in x[1..];
      assert x + y == [x[0]] + (x[1..] + y);
      SplitPrefix(x[1..], y, sep);
      SplitCons(x[0], x[1..] + y, sep);
      assert [x[0]] + (x[1..] + Split(y, sep)[0]) == x + Split(y, sep)[0];
    } else {
      var S := Split(y, sep);
      assert x + y == y && x + S[0] == S[0];
      assert [S[0]] + S[1..] == S;
    }
  }

  /** A character other than the separator joins the first piece. */
  lemma SplitCons(c: char, s: string, sep: char)
    requires c != sep
    ensures Split([c] + s, sep) == [[c] + Split(s, sep)[0]] + Split(s, sep)[1..]
  {
    assert ([c] + s)[1..] == s;
  }

  /** x + sep + y splits into exactly x and y when neither holds the separator. */
  lemma SplitPair(x: string, y: string, sep: char)
    requires sep !in x && sep !in y
    ensures Split(x + [sep] + y, sep) == [x, y]
  {
    var z := [sep] + y;
    assert x + [sep] + y == x + z;
    assert z[0] == sep && z[1..] == y;
    SplitNone(y, sep);
    assert Split(z, sep) == [""] + [y];
    SplitPrefix(x, z, sep);
    assert x + "" == x;
  }

  /** The number of occurrences of c in s. */
  function Count(s: string, c: char): nat {
    if s == [] then 0 else (if s[0] == c then 1 else 0) + Count(s[1..], c)
  }

  /** A split has one piece more than the string has separators. */
  lemma {:induction false} SplitCount(s: string, sep: char)
    ensures |Split(s, sep)| == Count(s, sep) + 1
  {
    if s != [] {
      SplitCount(s[1..], sep);
    }
  }

  /** s.replace(c, by) for a one-character pattern. */
  function Replace(s: string, c: char, repl: string): (r: string)
    ensures c !in s ==> r == s
    ensures c !in repl ==> c !in r
  {
    if s == [] then [] else (if s[0] == c then repl else [s[0]]) + Replace(s[1..], c, repl)
  }

  /** Replacing is splitting at c and joining with the replacement. */
  lemma {:induction false} ReplaceIsJoinSplit(s: string, c: char, repl: string)
    ensures Replace(s, c, repl) == Join(Split(s, c), repl)
  {
    if s != [] {
      ReplaceIsJoinSplit(s[1..], c, repl);
      JoinSplitStep(s, c, repl);
    }
  }

  /** Splitting off the first character: a separator becomes the replacement, any
      other character stays in front. */
  lemma JoinSplitStep(s: string, c: char, repl: string)
    requires s != []
    ensures Join(Split(s, c), repl) == (if s[0] == c then repl else [s[0]]) + Join(Split(s[1..], c), repl)
  {
    var rest := Split(s[1..], c);
    var parts := Split(s, c);
    if s[0] == c {
      assert parts == [""] + rest && parts[1..] == rest;
      assert Join(parts, repl) == "" + repl + Join(rest, repl);
    } else if |rest| == 1 {
      assert parts == [[s[0]] + rest[0]];
    } else {
      var j := Join(rest[1..], repl);
      assert parts == [[s[0]] + rest[0]] + rest[1..];
      assert Join(parts, repl) == ([s[0]] + rest[0]) + repl + j;
      assert Join(rest, repl) == rest[0] + repl + j;
    }
  }

  /** Where the four parts of a concatenation sit. */
  lemma Concat4(a: string, b: string, c: string, d: string, r: string)
    requires r == a + b + c + d
    ensures |r| == |a| + |b| + |c| + |d|
    ensures r[..|a|] == a && r[|a|..|a| + |b|] == b
    ensures r[|a| + |b|..|a| + |b| + |c|] == c && r[|a| + |b| + |c|..] == d
  {
    assert r == ((a + b) + c) + d;
  }
}
