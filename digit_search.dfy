/** re.search(prefix + r"(\d+)", s).group(1): the first run of digits that follows
    a literal prefix. The bot searches with the prefixes "/events/" and "/vtc/",
    and with none. */
module DigitSearch {
  import opened Wrappers
  import opened Text

  /** The pattern prefix(\d+) matches at position i of s. */
  predicate MatchAt(s: string, prefix: string, i: nat) {
    i + |prefix| < |s| && s[i..i + |prefix|] == prefix && IsDigit(s[i + |prefix|])
  }

  /** i is the leftmost position where prefix(\d+) matches. */
  predicate LeftmostMatch(s: string, prefix: string, i: nat) {
    MatchAt(s, prefix, i) && forall j: nat :: j < i ==> !MatchAt(s, prefix, j)
  }

  /** The leftmost position at or after `from` where the pattern matches. */
  function FirstMatch(s: string, prefix: string, from: nat): (r: Option<nat>)
    ensures r.Some? ==> from <= r.value && MatchAt(s, prefix, r.value)
    ensures r.Some? ==> forall j :: from <= j < r.value ==> !MatchAt(s, prefix, j)
    ensures r.None? ==> forall j :: from <= j ==> !MatchAt(s, prefix, j)
    decreases |s| - from
  {
    if from >= |s| then None
    else if MatchAt(s, prefix, from) then Some(from)
    else FirstMatch(s, prefix, from + 1)
  }

  /** The longest run of digits starting at k: what the greedy \d+ takes. */
  function DigitRun(s: string, k: nat): (r: string)
    requires k <= |s|
    ensures |r| <= |s| - k && r == s[k..k + |r|]
    ensures forall i :: 0 <= i < |r| ==> IsDigit(r[i])
    ensures k + |r| == |s| || !IsDigit(s[k + |r|])
    decreases |s| - k
  {
    if k < |s| && IsDigit(s[k]) then [s[k]] + DigitRun(s, k + 1) else []
  }

  /** The digits captured by the leftmost match of prefix(\d+) in s, if any. */
  function SearchDigits(s: string, prefix: string): (r: Option<string>)
    ensures r.None? <==> forall j: nat :: !MatchAt(s, prefix, j)
    ensures r.Some? ==> IsDigits(r.value)
    ensures r.Some? ==> exists i: nat ::
      LeftmostMatch(s, prefix, i) && i + |prefix| <= |s| && r.value == DigitRun(s, i + |prefix|)
  {
    match FirstMatch(s, prefix, 0)
    case None => None
    case Some(i) =>
      var d := DigitRun(s, i + |prefix|);
      assert |d| > 0 && d[0] == s[i + |prefix|];
      assert LeftmostMatch(s, prefix, i);
      Some(d)
  }

  /** When s is a string of digits, a prefix that holds a non-digit matches nowhere. */
  lemma NoMatchInDigits(s: string, prefix: string)
    requires IsDigits(s)
    requires exists c :: c in prefix && !IsDigit(c)
    ensures SearchDigits(s, prefix).None?
  {
    var c :| c in prefix && !IsDigit(c);
    forall j: nat ensures !MatchAt(s, prefix, j) {
      if j + |prefix| < |s| {
        var q :| 0 <= q < |prefix| && prefix[q] == c;
        assert s[j..j + |prefix|][q] == s[j + q];
      }
    }
  }

  /** With no prefix, the pattern matches exactly where a digit stands. */
  lemma MatchEmptyPrefix(s: string)
    ensures forall j: nat :: MatchAt(s, "", j) <==> j < |s| && IsDigit(s[j])
  {
    forall j: nat | j < |s| ensures s[j..j] == "" {
    }
  }

  /** With no prefix, the capture is the first maximal run of digits in s. */
  lemma FirstRunOfDigits(s: string, i: nat)
    requires i < |s| && IsDigit(s[i])
    requires forall j :: 0 <= j < i ==> !IsDigit(s[j])
    ensures SearchDigits(s, "") == Some(DigitRun(s, i))
  {
    assert MatchAt(s, "", i);
    forall j: nat | j < i ensures !MatchAt(s, "", j) {
    }
    var r := FirstMatch(s, "", 0);
    assert r.Some?;
    assert MatchAt(s, "", r.value);
  }

  /** A run of digits that stops where the digits stop is exactly what \d+ takes. */
  lemma {:induction false} DigitRunOf(s: string, k: nat, d: string)
    requires k + |d| <= |s| && s[k..k + |d|] == d
    requires forall i :: 0 <= i < |d| ==> IsDigit(d[i])
    requires k + |d| == |s| || !IsDigit(s[k + |d|])
    ensures DigitRun(s, k) == d
    decreases |d|
  {
    if d != [] {
      assert s[k] == d[0];
      assert s[k + 1..k + 1 + |d[1..]|] == d[1..];
      DigitRunOf(s, k + 1, d[1..]);
    }
  }

  /** The capture of the leftmost match is the digit run that follows the prefix there. */
  lemma SearchFinds(s: string, prefix: string, i: nat, d: string)
    requires LeftmostMatch(s, prefix, i)
    requires i + |prefix| + |d| <= |s| && s[i + |prefix|..i + |prefix| + |d|] == d
    requires forall q :: 0 <= q < |d| ==> IsDigit(d[q])
    requires i + |prefix| + |d| == |s| || !IsDigit(s[i + |prefix| + |d|])
    ensures SearchDigits(s, prefix) == Some(d)
  {
    DigitRunOf(s, i + |prefix|, d);
    var f := FirstMatch(s, prefix, 0);
    assert f.Some? && f.value <= i;
    assert f == Some(i);
  }

  /** No "/" in host is followed by c. */
  predicate NoSlashBefore(host: string, c: char) {
    forall j :: 0 <= j < |host| - 1 && host[j] == '/' ==> host[j + 1] != c
  }

  /** The TruckersMP site, whose pages are Site + "/events/" + id and
      Site + "/vtc/" + id. */
  const Site := "https://truckersmp.com"

  /** The only slashes of the site are the two of "https://". */
  lemma SiteSlashes(c: char)
    requires c != '/' && c != 't'
    ensures NoSlashBefore(Site, c)
  {
    forall j | 0 <= j < |Site| - 1 && Site[j] == '/' ensures Site[j + 1] != c {
      assert j == 6 || j == 7;
    }
  }

  /** No match of a prefix that starts with "/" can begin inside a host part that is
      followed by "/", when no "/" of the host is followed by the prefix's second
      character. */
  lemma NoMatchInHost(host: string, p: string, s: string)
    requires |p| >= 2 && p[0] == '/' && p[1] != '/'
    requires NoSlashBefore(host, p[1])
    requires |host| < |s| && s[..|host|] == host && s[|host|] == '/'
    ensures forall j: nat :: j < |host| ==> !MatchAt(s, p, j)
  {
    forall j: nat | j < |host| ensures !MatchAt(s, p, j) {
      if j + |p| < |s| {
        var w := s[j..j + |p|];
        assert w[0] == s[j] && w[1] == s[j + 1];
        assert s[j] == s[..|host|][j];
        assert j + 1 < |host| ==> s[j + 1] == s[..|host|][j + 1];
      }
    }
  }

  /** In host + prefix + digits + rest, the capture is those digits. */
  lemma SearchAfterHost(host: string, p: string, d: string, rest: string, s: string)
    requires |p| >= 2 && p[0] == '/' && p[1] != '/'
    requires NoSlashBefore(host, p[1])
    requires IsDigits(d) && (rest == [] || !IsDigit(rest[0]))
    requires s == host + p + d + rest
    ensures SearchDigits(s, p) == Some(d)
  {
    Concat4(host, p, d, rest, s);
    var k := |host| + |p|;
    assert s[k..k + |d|] == d;
    assert s[k] == s[k..k + |d|][0];
    assert s[|host|] == s[|host|..k][0];
    NoMatchInHost(host, p, s);
    assert MatchAt(s, p, |host|);
    assert k + |d| == |s| || s[k + |d|] == rest[0];
    SearchFinds(s, p, |host|, d);
  }
}
