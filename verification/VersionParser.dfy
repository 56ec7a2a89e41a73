/** The parse functions of util/version-info/version_info.c as they run, each proved to compute what the
    functions in VersionText and VersionConstraints say. */
module VersionParser {
  import opened VersionInfo
  import opened VersionText
  import opened VersionConstraints

  /** version_info_parse */
  method VersionInfoParse(value: string) returns (ret: int, version: Version)
    ensures ParseVersion(value) == if ret == 0 then Some(version) else None
    ensures ret != 0 ==> ret == -1 && version == Version(-1, -1, -1)
  {
    hide Strtol, ToInt, Segs;
    var nSegs := 0;
    var segs := new int[3](_ => -1);
    var rest := value;
    while nSegs < 3
      invariant 0 <= nSegs <= 3
      invariant Segs(value, 0) == segs[..nSegs] + Segs(rest, nSegs)
      invariant forall i :: nSegs <= i < 3 ==> segs[i] == -1
    {
      var (num, next) := Strtol(rest);
      SegsUnfold(rest, nSegs);
      if next == 0 {
        break;
      }
      segs[nSegs] := ToInt(num);
      nSegs := nSegs + 1;
      assert segs[..nSegs] == segs[..nSegs - 1] + [segs[nSegs - 1]];
      if next < |rest| && rest[next] == '.' {
        assert AfterDot(rest[next..]) == rest[next + 1..];
        next := next + 1;
      }
      rest := rest[next..];
    }
    SegsUnfold(rest, nSegs);
    assert Segs(value, 0) == segs[..nSegs];
    if nSegs == 0 {
      return -1, Version(-1, -1, -1);
    }
    return 0, Version(segs[0], segs[1], segs[2]);
  }

  lemma SegsUnfold(s: string, n: nat)
    ensures Segs(s, n) == if n >= 3 || Strtol(s).1 == 0 then []
                          else [ToInt(Strtol(s).0)] + Segs(AfterDot(s[Strtol(s).1..]), n + 1)
  {
    hide Strtol, ToInt;
  }

  lemma {:induction false} NoMoreOps(s: string, k: nat)
    requires k <= |s| && (k > 0 ==> IsOp(s[k - 1])) && FirstOp(s, k) == |s|
    ensures OpLen(s) == k
  {
    OpLenIs(s, k);
  }

  /** version_constraint_parse: 0 and the constraint, or -1. */
  method VersionConstraintParse(text: string) returns (ret: int, constraint: Constraint)
    ensures ParseConstraint(text) == if ret == 0 then Some(constraint) else None
    ensures ret != 0 ==> ret == -1
  {
    hide ParseVersion;
    constraint := Constraint(Version(0, 0, 0), Ignore);
    var value := text;
    while value != [] && value[0] == ' '
      invariant SkipSpaces(value) == SkipSpaces(text)
      decreases |value|
    {
      value := value[1..];
    }
    assert value == SkipSpaces(text);
    var cur := 0;
    while true
      invariant 0 <= cur <= |value| && (cur > 0 ==> IsOp(value[cur - 1]))
      decreases |value| - cur
    {
      var find := FirstOp(value, cur);
      if find == |value| {
        break;
      }
      cur := find + 1;
    }
    NoMoreOps(value, cur);
    if cur > 2 {
      return -1, constraint;
    }
    var op := OperandOf(value[..cur]);
    if op.None? {
      return -1, constraint;
    }
    var version;
    ret, version := VersionInfoParse(value[cur..]);
    constraint := Constraint(version, op.value);
  }

  /** version_constraints_parse: 0 and the constraints in the first `count` elements, or -1. */
  method VersionConstraintsParse(value: string) returns (ret: int, elements: array<Constraint>, count: nat)
    ensures ret == 0 ==> count <= elements.Length && ParseConstraints(value) == Some(elements[..count])
    ensures ret != 0 ==> ret == -1 && ParseConstraints(value) == None
  {
    hide ParseConstraint, NextToken;
    var nDelim := CountCommas(value);
    elements := new Constraint[nDelim + 1](_ => Constraint(Version(0, 0, 0), Ignore));
    TokensFit(value);
    var rest := value;
    count := 0;
    PrependedNothing(ParseAll(Tokens(value)));
    while true
      invariant count + |Tokens(rest)| == |Tokens(value)| <= elements.Length
      invariant ParseAll(Tokens(value)) == Prepended(elements[..count], ParseAll(Tokens(rest)))
      decreases |rest|
    {
      var token := NextToken(rest);
      if token.None? {
        break;
      }
      var text, left := token.value.0, token.value.1;
      assert Tokens(rest) == [text] + Tokens(left);
      PrependedStep(text, Tokens(left), elements[..count]);
      var constraint;
      ret, constraint := VersionConstraintParse(text);
      if ret != 0 {
        return -1, elements, 0;
      }
      elements[count] := constraint;
      count := count + 1;
      assert elements[..count] == elements[..count - 1] + [constraint];
      rest := left;
    }
    ret := 0;
    assert Tokens(rest) == [];
    assert elements[..count] + [] == elements[..count];
  }

  /** The list, if there is one, behind some elements. */
  function Prepended(head: seq<Constraint>, tail: Option<seq<Constraint>>): Option<seq<Constraint>> {
    if tail.None? then None else Some(head + tail.value)
  }

  lemma PrependedNothing(tail: Option<seq<Constraint>>)
    ensures Prepended([], tail) == tail
  {
    if tail.Some? {
      assert [] + tail.value == tail.value;
    }
  }

  lemma PrependedStep(text: string, tokens: seq<string>, head: seq<Constraint>)
    ensures Prepended(head, ParseAll([text] + tokens))
            == if ParseConstraint(text).None? then None
               else Prepended(head + [ParseConstraint(text).value], ParseAll(tokens))
  {
    hide ParseConstraint;
    assert ([text] + tokens)[1..] == tokens;
    var cs := ParseAll(tokens);
    if ParseConstraint(text).Some? && cs.Some? {
      assert head + ([ParseConstraint(text).value] + cs.value) == head + [ParseConstraint(text).value] + cs.value;
    }
  }

  /** The loop over strchr. */
  method CountCommas(s: string) returns (n: nat)
    ensures n == Commas(s)
  {
    n := 0;
    var cur := 0;
    assert s[0..] == s;
    while true
      invariant 0 <= cur <= |s|
      invariant n + Commas(s[cur..]) == Commas(s)
      decreases |s| - cur
    {
      var find := Comma(s, cur);
      CommasUpTo(s, cur, find);
      if find == |s| {
        break;
      }
      n := n + 1;
      cur := find + 1;
    }
  }

  lemma {:induction false} CommasUpTo(s: string, i: nat, k: nat)
    requires i <= k <= |s| && (forall j :: i <= j < k ==> s[j] != ',') && (k < |s| ==> s[k] == ',')
    ensures Commas(s[i..]) == if k < |s| then 1 + Commas(s[k + 1..]) else 0
    decreases k - i
  {
    if i < k {
      CommasUpTo(s, i + 1, k);
      assert s[i..][1..] == s[i + 1..];
    } else if k < |s| {
      assert s[i..][1..] == s[k + 1..];
    }
  }
}
