/** Reading lists of version constraints (util/version-info/version_info.c). */
module VersionConstraints {
  import opened VersionInfo
  import opened VersionText

  predicate IsOp(c: char) {
    c == '<' || c == '>' || c == '='
  }

  /** The first operand character at or behind i, or |s| (strpbrk). */
  function FirstOp(s: string, i: nat): (k: nat)
    requires i <= |s|
    ensures i <= k <= |s| && (forall j :: i <= j < k ==> !IsOp(s[j])) && (k < |s| ==> IsOp(s[k]))
    decreases |s| - i
  {
    if i == |s| || IsOp(s[i]) then i else FirstOp(s, i + 1)
  }

  /** How many characters up to and including the last operand character there are. */
  function OpLen(s: string): (k: nat)
    ensures k <= |s| && (k > 0 ==> IsOp(s[k - 1])) && forall j :: k <= j < |s| ==> !IsOp(s[j])
  {
    if s == [] then 0 else if IsOp(s[|s| - 1]) then |s| else OpLen(s[..|s| - 1])
  }

  function SkipSpaces(s: string): string {
    if s != [] && s[0] == ' ' then SkipSpaces(s[1..]) else s
  }

  /** The operand written as op, as version_constraint_parse sees it. */
  function OperandOf(op: string): Option<Operand> {
    if op == ">=" then Some(GreaterEquals)
    else if op == "<=" then Some(LesserEquals)
    else if op == "<>" then Some(NotEquals)
    else if op == "=" || op == "" then Some(Equals)
    else if op == "<" then Some(LesserThan)
    else if op == ">" then Some(GreaterThan)
    else None
  }

  /** version_constraint_parse */
  function ParseConstraint(s: string): Option<Constraint> {
    var t := SkipSpaces(s);
    var k := OpLen(t);
    var op := OperandOf(t[..k]);
    var v := ParseVersion(t[k..]);
    if op.None? || v.None? then None else Some(Constraint(v.value, op.value))
  }

  /** The first comma at or behind i, or |s| (strchr). */
  function Comma(s: string, i: nat): (k: nat)
    requires i <= |s|
    ensures i <= k <= |s| && (forall j :: i <= j < k ==> s[j] != ',') && (k < |s| ==> s[k] == ',')
    decreases |s| - i
  {
    if i == |s| || s[i] == ',' then i else Comma(s, i + 1)
  }

  function Commas(s: string): nat {
    if s == [] then 0 else (if s[0] == ',' then 1 else 0) + Commas(s[1..])
  }

  function SkipCommas(s: string): string {
    if s != [] && s[0] == ',' then SkipCommas(s[1..]) else s
  }

  /** strtok_r with ",": the next token and what is left behind its delimiter. */
  function NextToken(s: string): (r: Option<(string, string)>)
    ensures r.Some? ==> |r.value.1| < |s|
  {
    var t := SkipCommas(s);
    SkipCommasShorter(s);
    if t == [] then None
    else
      var k := Comma(t, 0);
      Some((t[..k], if k < |t| then t[k + 1..] else []))
  }

  lemma {:induction false} SkipCommasShorter(s: string)
    ensures |SkipCommas(s)| <= |s| && (SkipCommas(s) != [] ==> SkipCommas(s)[0] != ',')
    ensures Commas(SkipCommas(s)) <= Commas(s)
  {
    if s != [] && s[0] == ',' {
      SkipCommasShorter(s[1..]);
    }
  }

  /** All tokens. */
  function Tokens(s: string): seq<string>
    decreases |s|
  {
    var t := NextToken(s);
    if t.None? then [] else [t.value.0] + Tokens(t.value.1)
  }

  /** The constraints of a list of tokens, if all are well-formed. */
  function ParseAll(tokens: seq<string>): Option<seq<Constraint>> {
    if tokens == [] then Some([])
    else
      var c := ParseConstraint(tokens[0]);
      var cs := ParseAll(tokens[1..]);
      if c.None? || cs.None? then None else Some([c.value] + cs.value)
  }

  /** version_constraints_parse */
  function ParseConstraints(s: string): Option<seq<Constraint>> {
    ParseAll(Tokens(s))
  }

  // ---------- The array is big enough ----------

  lemma {:induction false} CommasFrom(s: string, k: nat)
    requires k < |s| && s[k] == ','
    ensures Commas(s) >= 1 + Commas(s[k + 1..])
  {
    if k > 0 {
      CommasFrom(s[1..], k - 1);
      assert s[1..][k..] == s[k + 1..];
    }
  }

  /** There is at most one token more than there are commas. */
  lemma {:induction false} TokensFit(s: string)
    ensures |Tokens(s)| <= Commas(s) + 1
    decreases |s|
  {
    var t := SkipCommas(s);
    SkipCommasShorter(s);
    if t != [] {
      var k := Comma(t, 0);
      if k < |t| {
        CommasFrom(t, k);
        TokensFit(t[k + 1..]);
      } else {
        assert Tokens([]) == [];
      }
    }
  }

  // ---------- Round trip ----------

  function OpText(op: Operand): string {
    match op
    case Ignore => ""
    case Equals => "="
    case NotEquals => "<>"
    case GreaterThan => ">"
    case GreaterEquals => ">="
    case LesserThan => "<"
    case LesserEquals => "<="
  }

  /** A constraint that can be written down. */
  predicate Writable(c: Constraint) {
    c.operand != Ignore && c.version.major >= 0 && IsVersion(c.version) && c.version == Canonical(c.version)
  }

  function ConstraintStr(c: Constraint): string
    requires Writable(c)
  {
    OpText(c.operand) + VersionStr(c.version).value
  }

  function CommaJoined(cs: seq<Constraint>): string
    requires forall i :: 0 <= i < |cs| ==> Writable(cs[i])
  {
    if cs == [] then ""
    else if |cs| == 1 then ConstraintStr(cs[0])
    else ConstraintStr(cs[0]) + "," + CommaJoined(cs[1..])
  }

  /** Digits and dots. */
  predicate Plain(s: string) {
    forall i :: 0 <= i < |s| ==> IsDigit(s[i]) || s[i] == '.'
  }

  lemma VersionStrPlain(v: Version)
    requires v.major >= 0
    ensures VersionStr(v).Some? && Plain(VersionStr(v).value) && VersionStr(v).value != []
  {
    hide Digits;
  }

  lemma {:induction false} OpLenIs(s: string, k: nat)
    requires k <= |s| && (k > 0 ==> IsOp(s[k - 1])) && forall j :: k <= j < |s| ==> !IsOp(s[j])
    ensures OpLen(s) == k
  {
    if k < |s| {
      OpLenIs(s[..|s| - 1], k);
    }
  }

  lemma ParseUndoesConstraintStr(c: Constraint)
    requires Writable(c)
    ensures ParseConstraint(ConstraintStr(c)) == Some(c)
  {
    hide VersionStr, ParseVersion;
    VersionStrPlain(c.version);
    var op, v := OpText(c.operand), VersionStr(c.version).value;
    var s := op + v;
    ParseUndoesStr(c.version);
    assert s[0] != ' ' && SkipSpaces(s) == s;
    OpLenIs(s, |op|);
    assert s[..|op|] == op && s[|op|..] == v;
  }

  /** Behind any spaces, operand characters and a version are read as the constraint of that operand, as the one for
      equality if there are none, and not at all if they are no operand. */
  lemma ParsesExactly(spaces: string, op: string, v: Version, o: Operand)
    requires forall i :: 0 <= i < |spaces| ==> spaces[i] == ' '
    requires forall i :: 0 <= i < |op| ==> IsOp(op[i])
    requires v.major >= 0 && IsVersion(v) && v == Canonical(v)
    ensures VersionStr(v).Some?
    ensures ParseConstraint(spaces + op + VersionStr(v).value) == Some(Constraint(v, o)) <==>
            o != Ignore && (op == OpText(o) || (op == "" && o == Equals))
    ensures ParseConstraint(spaces + op + VersionStr(v).value).None? <==>
            op != "" && forall p :: p != Ignore ==> op != OpText(p)
  {
    hide VersionStr, ParseVersion, OperandOf, OpText, ParseConstraint;
    VersionStrPlain(v);
    ParseUndoesStr(v);
    OperandRead(spaces, op, VersionStr(v).value);
    OperandsAre(op, o);
  }

  lemma OperandRead(spaces: string, op: string, t: string)
    requires forall i :: 0 <= i < |spaces| ==> spaces[i] == ' '
    requires forall i :: 0 <= i < |op| ==> IsOp(op[i])
    requires t != [] && Plain(t)
    ensures
      var o, v := OperandOf(op), ParseVersion(t);
      ParseConstraint(spaces + op + t) == if o.None? || v.None? then None else Some(Constraint(v.value, o.value))
  {
    hide ParseVersion, OperandOf;
    var s := op + t;
    assert spaces + op + t == spaces + s;
    assert s[0] == if op == [] then t[0] else op[0];
    SpacesSkipped(spaces, s);
    OpLenIs(s, |op|);
    assert s[..|op|] == op && s[|op|..] == t;
  }

  lemma OperandsAre(op: string, o: Operand)
    ensures OperandOf(op) == Some(o) <==> o != Ignore && (op == OpText(o) || (op == "" && o == Equals))
    ensures OperandOf(op).None? <==> op != "" && forall p :: p != Ignore ==> op != OpText(p)
  {
    if OperandOf(op).Some? && op != "" {
      assert op == OpText(OperandOf(op).value);
    }
  }

  lemma {:induction false} SpacesSkipped(spaces: string, s: string)
    requires (forall i :: 0 <= i < |spaces| ==> spaces[i] == ' ') && s != [] && s[0] != ' '
    ensures SkipSpaces(spaces + s) == s
  {
    if spaces == [] {
      assert spaces + s == s;
    } else {
      assert (spaces + s)[1..] == spaces[1..] + s;
      SpacesSkipped(spaces[1..], s);
    }
  }

  lemma ConstraintStrHasNoComma(c: Constraint)
    requires Writable(c)
    ensures ConstraintStr(c) != [] && forall i :: 0 <= i < |ConstraintStr(c)| ==> ConstraintStr(c)[i] != ','
  {
    hide VersionStr;
    VersionStrPlain(c.version);
  }

  lemma {:induction false} CommaIs(s: string, i: nat, k: nat)
    requires i <= k <= |s| && (forall j :: i <= j < k ==> s[j] != ',') && (k < |s| ==> s[k] == ',')
    ensures Comma(s, i) == k
    decreases k - i
  {
    if i < k {
      CommaIs(s, i + 1, k);
    }
  }

  lemma FirstToken(t: string, rest: string)
    requires t != [] && forall i :: 0 <= i < |t| ==> t[i] != ','
    ensures Tokens(t) == [t] && Tokens(t + "," + rest) == [t] + Tokens(rest)
  {
    CommaIs(t, 0, |t|);
    assert t[..|t|] == t && Tokens([]) == [];
    assert Tokens(t) == [t];
    var s := t + "," + rest;
    CommaIs(s, 0, |t|);
    assert s[..|t|] == t && s[|t| + 1..] == rest;
  }

  lemma ParseLast(c: Constraint)
    requires Writable(c)
    ensures ParseConstraints(ConstraintStr(c)) == Some([c])
  {
    ConstraintStrHasNoComma(c);
    ParseUndoesConstraintStr(c);
    FirstToken(ConstraintStr(c), "");
    hide Tokens, ConstraintStr, ParseConstraint;
    ParseOne(ConstraintStr(c), []);
    assert [ConstraintStr(c)] + [] == [ConstraintStr(c)] && [c] + [] == [c];
  }

  lemma ParseMore(c: Constraint, text: string)
    requires Writable(c) && ParseConstraints(text).Some?
    ensures ParseConstraints(ConstraintStr(c) + "," + text) == Some([c] + ParseConstraints(text).value)
  {
    ConstraintStrHasNoComma(c);
    ParseUndoesConstraintStr(c);
    FirstToken(ConstraintStr(c), text);
    hide Tokens, ConstraintStr, ParseConstraint;
    ParseOne(ConstraintStr(c), Tokens(text));
  }

  lemma ParseOne(t: string, tokens: seq<string>)
    requires ParseConstraint(t).Some? && ParseAll(tokens).Some?
    ensures ParseAll([t] + tokens) == Some([ParseConstraint(t).value] + ParseAll(tokens).value)
  {
    assert ([t] + tokens)[1..] == tokens;
  }

  /** Reading a list of constraints written with commas between them gives back the list. */
  lemma {:induction false} ParseUndoesCommaJoined(cs: seq<Constraint>)
    requires forall i :: 0 <= i < |cs| ==> Writable(cs[i])
    ensures ParseConstraints(CommaJoined(cs)) == Some(cs)
  {
    hide ConstraintStr, ParseConstraint;
    if cs == [] {
      assert Tokens("") == [];
    } else if |cs| == 1 {
      hide ParseConstraints;
      ParseLast(cs[0]);
      assert [cs[0]] == cs;
    } else {
      hide ParseConstraints;
      ParseUndoesCommaJoined(cs[1..]);
      ParseMore(cs[0], CommaJoined(cs[1..]));
      assert [cs[0]] + cs[1..] == cs;
    }
  }
}
