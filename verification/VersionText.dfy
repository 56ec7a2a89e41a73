/** Reading and writing versions and constraints (util/version-info/version_info.c), on strings. */
module VersionText {
  import opened VersionInfo

  // ---------- strtol ----------

  predicate IsDigit(c: char) {
    '0' <= c <= '9'
  }

  predicate IsSpace(c: char) {
    c == ' ' || '\t' <= c <= '\r'
  }

  function DigitValue(c: char): nat
    requires IsDigit(c)
  {
    c as int - '0' as int
  }

  function Spaces(s: string): (k: nat)
    ensures k <= |s|
  {
    if s == [] || !IsSpace(s[0]) then 0 else 1 + Spaces(s[1..])
  }

  /** How many digits s starts with. */
  function DigitRun(s: string): (k: nat)
    ensures k <= |s| && forall i :: 0 <= i < k ==> IsDigit(s[i])
  {
    if s == [] || !IsDigit(s[0]) then 0 else 1 + DigitRun(s[1..])
  }

  /** The decimal number written in s. */
  function Value(s: string): nat
    requires forall i :: 0 <= i < |s| ==> IsDigit(s[i])
  {
    if s == [] then 0 else Value(s[..|s| - 1]) * 10 + DigitValue(s[|s| - 1])
  }

  function Saturated(x: int): int {
    if x > LONG_MAX then LONG_MAX else if x < -LONG_MAX - 1 then -LONG_MAX - 1 else x
  }

  /** A long stored in an int. */
  function ToInt(x: int): int {
    var r := x % 0x1_0000_0000;
    if r > INT_MAX then r - 0x1_0000_0000 else r
  }

  /** strtol in base 10: the number and how many characters it takes, none if there is no number. */
  function Strtol(s: string): (r: (int, nat))
    ensures r.1 <= |s|
  {
    var i := Spaces(s);
    var signed := i < |s| && (s[i] == '-' || s[i] == '+');
    var j := if signed then i + 1 else i;
    var k := DigitRun(s[j..]);
    if k == 0 then (0, 0)
    else
      var v: int := Value(s[j..][..k]);
      (Saturated(if signed && s[i] == '-' then -v else v), j + k)
  }

  // ---------- Versions ----------

  /** The rest of the loop of version_info_parse when n segments have been read. */
  function Segs(s: string, n: nat): seq<int>
    decreases 3 - n
  {
    if n >= 3 then []
    else
      var (v, k) := Strtol(s);
      if k == 0 then []
      else [ToInt(v)] + Segs(AfterDot(s[k..]), n + 1)
  }

  function AfterDot(s: string): string {
    if s != [] && s[0] == '.' then s[1..] else s
  }

  function VersionOf(segs: seq<int>): Version {
    Version(if |segs| > 0 then segs[0] else -1, if |segs| > 1 then segs[1] else -1, if |segs| > 2 then segs[2] else -1)
  }

  /** version_info_parse */
  function ParseVersion(s: string): Option<Version> {
    var segs := Segs(s, 0);
    if segs == [] then None else Some(VersionOf(segs))
  }

  /** %d of a non-negative number. */
  function Digits(n: nat): (s: string)
    ensures s != [] && forall i :: 0 <= i < |s| ==> IsDigit(s[i])
  {
    (if n < 10 then [] else Digits(n / 10)) + [(n % 10 + '0' as int) as char]
  }

  /** version_info_str */
  function VersionStr(v: Version): Option<string> {
    if v.major < 0 then None
    else if v.minor < 0 then Some(Digits(v.major))
    else if v.patch < 0 then Some(Digits(v.major) + "." + Digits(v.minor))
    else Some(Digits(v.major) + "." + Digits(v.minor) + "." + Digits(v.patch))
  }

  lemma {:induction false} DigitsValue(n: nat)
    ensures Value(Digits(n)) == n
  {
    var s := Digits(n);
    var c := (n % 10 + '0' as int) as char;
    if n >= 10 {
      DigitsValue(n / 10);
      assert s[..|s| - 1] == Digits(n / 10);
    } else {
      assert s[..|s| - 1] == [];
    }
    assert s[|s| - 1] == c;
  }

  lemma {:induction false} DigitsLength(n: nat, k: nat)
    requires n < Pow10(k) && k > 0
    ensures |Digits(n)| <= k
  {
    if n >= 10 {
      DigitsLength(n / 10, k - 1);
    }
  }

  function Pow10(k: nat): nat {
    if k == 0 then 1 else 10 * Pow10(k - 1)
  }

  lemma {:induction false} DigitRunIs(s: string, k: nat)
    requires k <= |s| && (forall i :: 0 <= i < k ==> IsDigit(s[i])) && (k < |s| ==> !IsDigit(s[k]))
    ensures DigitRun(s) == k
  {
    if k > 0 {
      DigitRunIs(s[1..], k - 1);
    }
  }

  lemma StrtolDigits(n: nat, rest: string)
    requires n <= INT_MAX && (rest == [] || !IsDigit(rest[0]))
    ensures Strtol(Digits(n) + rest) == (n as int, |Digits(n)|)
  {
    hide Digits, Value;
    var d := Digits(n);
    var s := d + rest;
    assert IsDigit(s[0]) && Spaces(s) == 0;
    assert s[0..] == s && s[..|d|] == d;
    DigitRunIs(s, |d|);
    DigitsValue(n);
  }

  /** Behind white space and with an optional sign the number is read, and held within the range of a long. */
  lemma StrtolReads(spaces: string, sign: string, n: nat, rest: string)
    requires forall i :: 0 <= i < |spaces| ==> IsSpace(spaces[i])
    requires sign in {"", "+", "-"} && (rest == [] || !IsDigit(rest[0]))
    ensures
      var k: int := n;
      var v := if sign == "-" then -k else k;
      var text := spaces + sign + Digits(n);
      Strtol(text + rest) == (if v > LONG_MAX then LONG_MAX else if v < -LONG_MAX - 1 then -LONG_MAX - 1 else v, |text|)
  {
    hide Digits, Value;
    var d := Digits(n);
    var s := spaces + sign + d + rest;
    var i, j := |spaces|, |spaces| + |sign|;
    assert s[i] == if sign == [] then d[0] else sign[0];
    assert s[j..] == d + rest;
    assert forall x :: 0 <= x < i ==> s[x] == spaces[x];
    SpacesIs(s, i);
    DigitRunIs(d + rest, |d|);
    DigitsValue(n);
    StrtolAt(s, i, j, d, rest);
  }

  /** The number d, read from index j of s, with its sign, if any, at index i. */
  lemma StrtolAt(s: string, i: nat, j: nat, d: string, rest: string)
    requires i < |s| && Spaces(s) == i && j == (if s[i] == '-' || s[i] == '+' then i + 1 else i)
    requires j <= |s| && s[j..] == d + rest && d != [] && DigitRun(d + rest) == |d| && forall x :: 0 <= x < |d| ==> IsDigit(d[x])
    ensures var v: int := Value(d); Strtol(s) == (Saturated(if s[i] == '-' then -v else v), j + |d|)
  {
    hide Value, Spaces, DigitRun;
    assert (d + rest)[..|d|] == d;
  }

  lemma {:induction false} SpacesIs(s: string, k: nat)
    requires k <= |s| && (forall i :: 0 <= i < k ==> IsSpace(s[i])) && (k < |s| ==> !IsSpace(s[k]))
    ensures Spaces(s) == k
  {
    if k > 0 {
      SpacesIs(s[1..], k - 1);
    }
  }

  predicate IsVersion(v: Version) {
    IsInt(v.major) && IsInt(v.minor) && IsInt(v.patch)
  }

  /** The version with its missing segments marked as version_info_parse marks them. */
  function Canonical(v: Version): Version {
    if v.minor < 0 then Version(v.major, -1, -1)
    else if v.patch < 0 then Version(v.major, v.minor, -1)
    else v
  }

  lemma SegsOfDigits(n: nat, rest: string, k: nat)
    requires n <= INT_MAX && k < 3 && (rest == [] || rest[0] == '.')
    ensures Segs(Digits(n) + rest, k) == [n as int] + Segs(AfterDot(rest), k + 1)
  {
    hide Strtol, Digits, Value;
    StrtolDigits(n, rest);
    SegsStep(Digits(n) + rest, k, n, |Digits(n)|);
    assert (Digits(n) + rest)[|Digits(n)|..] == rest;
  }

  lemma SegsStep(s: string, n: nat, v: int, k: nat)
    requires n < 3 && Strtol(s) == (v, k) && 0 < k <= |s| && 0 <= v <= INT_MAX
    ensures Segs(s, n) == [v] + Segs(AfterDot(s[k..]), n + 1)
  {
    hide Strtol;
  }

  lemma SegsOfNothing(n: nat)
    ensures Segs("", n) == []
  {
  }

  lemma SegsOfLast(n: nat, k: nat)
    requires n <= INT_MAX && k < 3
    ensures Segs(Digits(n), k) == [n as int]
  {
    hide Digits, Segs;
    assert Digits(n) + "" == Digits(n);
    SegsOfDigits(n, "", k);
    SegsOfNothing(k + 1);
  }

  lemma SegsOfPart(n: nat, rest: string, k: nat)
    requires n <= INT_MAX && k < 3
    ensures Segs(Digits(n) + "." + rest, k) == [n as int] + Segs(rest, k + 1)
  {
    hide Digits, Segs;
    assert Digits(n) + "." + rest == Digits(n) + ("." + rest);
    assert AfterDot("." + rest) == rest;
    SegsOfDigits(n, "." + rest, k);
  }

  /** version_info_parse undoes version_info_str for every valid version, and the buffer of 64 characters is never
      too small. */
  lemma ParseUndoesStr(v: Version)
    requires v.major >= 0 && IsVersion(v)
    ensures ParseVersion(VersionStr(v).value) == Some(Canonical(v))
    ensures |VersionStr(v).value| < 64
  {
    hide Digits, Segs;
    IntDigits(v.major);
    if v.minor < 0 {
      SegsOfLast(v.major, 0);
    } else {
      IntDigits(v.minor);
      if v.patch < 0 {
        SegsOfLast(v.minor, 1);
        SegsOfPart(v.major, Digits(v.minor), 0);
      } else {
        IntDigits(v.patch);
        SegsOfLast(v.patch, 2);
        SegsOfPart(v.minor, Digits(v.patch), 1);
        SegsOfPart(v.major, Digits(v.minor) + "." + Digits(v.patch), 0);
        assert Digits(v.major) + "." + (Digits(v.minor) + "." + Digits(v.patch)) == VersionStr(v).value;
      }
    }
  }

  /** Whatever follows a full version is ignored, if it does not go on with a digit. */
  lemma MoreIgnored(v: Version, rest: string)
    requires Full(v) && IsVersion(v) && (rest == [] || !IsDigit(rest[0]))
    ensures ParseVersion(VersionStr(v).value + rest) == Some(v)
  {
    hide Digits, Segs;
    var last := Digits(v.patch) + rest;
    var s := VersionStr(v).value + rest;
    assert s == Digits(v.major) + "." + (Digits(v.minor) + "." + last);
    SegsOfPart(v.major, Digits(v.minor) + "." + last, 0);
    SegsOfPart(v.minor, last, 1);
    ThirdSegment(v.patch, rest);
  }

  lemma ThirdSegment(n: nat, rest: string)
    requires n <= INT_MAX && (rest == [] || !IsDigit(rest[0]))
    ensures Segs(Digits(n) + rest, 2) == [n as int]
  {
    hide Strtol, Digits, Value;
    StrtolDigits(n, rest);
    SegsStep(Digits(n) + rest, 2, n, |Digits(n)|);
  }

  /** A text that does not begin like a number is no version. */
  lemma NotAVersion(s: string)
    requires s == [] || (!IsSpace(s[0]) && !IsDigit(s[0]) && s[0] != '-' && s[0] != '+')
    ensures ParseVersion(s) == None
  {
    assert s[0..] == s;
  }

  lemma IntDigits(n: nat)
    requires n <= INT_MAX
    ensures |Digits(n)| <= 10
  {
    assert Pow10(10) == 10 * (10 * (10 * (10 * (10 * Pow10(5)))));
    assert Pow10(5) == 100000;
    DigitsLength(n, 10);
  }
}
