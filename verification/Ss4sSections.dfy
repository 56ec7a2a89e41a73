/** What the ini file of media modules says, and that a written list of modules is read back
    (media/ss4s/modules-list/ss4s_modules.c). */
module Ss4sSections {
  import V = VersionInfo
  import VersionText
  import VersionConstraints
  import opened Ss4sModules
  import opened Ss4sIni

  // ---------- What a section says ----------

  /** The value of the last line with the given name. */
  function LastValue(lines: seq<Line>, name: string): Option<string> {
    if lines == [] then None
    else if lines[|lines| - 1].name == name then Some(lines[|lines| - 1].value)
    else LastValue(lines[..|lines| - 1], name)
  }

  /** The items of the last list of conflicts that has any. */
  function LastConflicts(lines: seq<Line>): seq<string> {
    if lines == [] then []
    else
      var last := lines[|lines| - 1];
      if last.name == "conflicts" && VersionConstraints.Tokens(last.value) != []
      then VersionConstraints.Tokens(last.value)
      else LastConflicts(lines[..|lines| - 1])
  }

  /** An os_version line that can be read. */
  predicate IsVersionLine(line: Line) {
    line.name == "os_version" && VersionConstraints.ParseConstraints(line.value).Some?
  }

  /** An os_version line comes behind one that could be read. */
  predicate VersionTwice(lines: seq<Line>) {
    exists i, j :: 0 <= i < j < |lines| && IsVersionLine(lines[i]) && lines[j].name == "os_version"
  }

  /** The constraints of the last os_version line, if it can be read. */
  function LastConstraints(lines: seq<Line>): Option<seq<V.Constraint>> {
    var v := LastValue(lines, "os_version");
    if v.None? then None
    else
      var cs := VersionConstraints.ParseConstraints(v.value);
      if cs.Some? then Some(cs.value) else None
  }

  predicate IsTrue(v: Option<string>) {
    v == Some("true")
  }

  /** The weight of a module is a number, no less than 0 and no more than 100. */
  function LastWeight(lines: seq<Line>): int {
    var v := LastValue(lines, "weight");
    if v.None? then 0 else Weight(v.value)
  }

  /** What the lines of a section say about its module. */
  ghost predicate Says(lines: seq<Line>, d: Draft) {
    && d.group == LastValue(lines, "group") && d.weight == LastWeight(lines)
    && d.hasAudio == IsTrue(LastValue(lines, "audio")) && d.hasVideo == IsTrue(LastValue(lines, "video"))
    && d.conflicts == LastConflicts(lines) && d.osVersion == LastConstraints(lines)
  }

  lemma {:induction false} SetAllSnoc(d: Draft, lines: seq<Line>, last: Line)
    ensures SetAll(d, lines + [last]) ==
      var e := SetAll(d, lines); if e.None? then None else SetProperty(e.value, last.name, last.value)
    decreases |lines|
  {
    hide SetProperty;
    if lines == [] {
      assert lines + [last] == [last] && [last][1..] == [];
    } else {
      assert (lines + [last])[1..] == lines[1..] + [last];
      var e := SetProperty(d, lines[0].name, lines[0].value);
      if e.Some? {
        SetAllSnoc(e.value, lines[1..], last);
      }
    }
  }

  /** Reading a section goes wrong exactly if an os_version line comes behind one that could be read; else each property of its
      module is what the last line about it says. */
  lemma {:induction false} SectionMeans(section: string, lines: seq<Line>)
    ensures
      var r := SetAll(BLANK.(id := Some(section)), lines);
      (r.None? <==> VersionTwice(lines)) && (r.Some? ==> r.value.id == Some(section) && Says(lines, r.value))
    decreases |lines|
  {
    var d := BLANK.(id := Some(section));
    if lines != [] {
      var front, last := lines[..|lines| - 1], lines[|lines| - 1];
      assert lines == front + [last];
      SectionMeans(section, front);
      SetAllSnoc(d, front, last);
      var e := SetAll(d, front);
      TwiceSnoc(front, last);
      if e.Some? {
        VersionSeen(front);
        PropertyMeans(front, last, e.value);
      }
    }
  }

  lemma {:induction false} VersionSeen(lines: seq<Line>)
    requires !VersionTwice(lines)
    ensures LastConstraints(lines).Some? <==> exists i :: 0 <= i < |lines| && IsVersionLine(lines[i])
    decreases |lines|
  {
    if lines != [] {
      var front, last := lines[..|lines| - 1], lines[|lines| - 1];
      assert lines == front + [last];
      TwiceSnoc(front, last);
      VersionSeen(front);
      if i :| 0 <= i < |front| && IsVersionLine(front[i]) {
        assert lines[i] == front[i];
      }
    }
  }

  lemma TwiceSnoc(front: seq<Line>, last: Line)
    ensures VersionTwice(front + [last]) <==>
      VersionTwice(front) || (last.name == "os_version" && exists i :: 0 <= i < |front| && IsVersionLine(front[i]))
  {
    hide IsVersionLine;
    var lines := front + [last];
    assert lines[|front|] == last && forall i :: 0 <= i < |front| ==> lines[i] == front[i];
  }

  lemma PropertyMeans(front: seq<Line>, last: Line, d: Draft)
    requires Says(front, d)
    ensures
      var r := SetProperty(d, last.name, last.value);
      && (r.None? <==> last.name == "os_version" && LastConstraints(front).Some?)
      && (r.Some? ==> r.value.id == d.id && Says(front + [last], r.value))
  {
    hide Weight, VersionConstraints.Tokens, VersionConstraints.ParseConstraints;
    LastSnoc(front, last);
    hide LastValue, LastConflicts;
  }

  lemma LastSnoc(front: seq<Line>, last: Line)
    ensures forall name :: LastValue(front + [last], name) == if last.name == name then Some(last.value) else LastValue(front, name)
    ensures LastConflicts(front + [last]) ==
      if last.name == "conflicts" && VersionConstraints.Tokens(last.value) != [] then VersionConstraints.Tokens(last.value)
      else LastConflicts(front)
  {
    hide VersionConstraints.Tokens;
    var lines := front + [last];
    assert lines[|lines| - 1] == last && lines[..|lines| - 1] == front;
  }

  /** The weight of a number, written with or without a sign. */
  lemma WeightMeans(n: nat)
    requires n <= V.INT_MAX
    ensures Weight(VersionText.Digits(n)) == if n > 100 then 100 else n
    ensures Weight("-" + VersionText.Digits(n)) == 0
  {
    hide VersionText.Digits, VersionText.Strtol;
    VersionText.StrtolReads("", "", n, "");
    VersionText.StrtolReads("", "-", n, "");
    assert "" + "" + VersionText.Digits(n) + "" == VersionText.Digits(n);
    assert "" + "-" + VersionText.Digits(n) + "" == "-" + VersionText.Digits(n);
  }

  // ---------- What a file says ----------

  /** The constraints of a section shut this system out. */
  predicate ShutOut(lines: seq<Line>, os: V.Version) {
    LastConstraints(lines).Some? && exists c :: c in LastConstraints(lines).value && !V.Passes(c, os)
  }

  /** The module that the lines of one section describe. */
  function Described(run: seq<Line>): Module
    requires run != []
  {
    Module(run[0].section, LastValue(run, "group"), LastWeight(run), IsTrue(LastValue(run, "audio")),
           IsTrue(LastValue(run, "video")), LastConflicts(run))
  }

  ghost predicate OneSection(run: seq<Line>, rest: seq<Line>) {
    && run != [] && (forall i :: 0 <= i < |run| ==> run[i].section == run[0].section)
    && (rest != [] ==> rest[0].section != run[0].section)
  }

  /** Reading a file reads the module that its first section describes, unless that shuts this system out, and then the rest;
      and goes wrong exactly if a section has an os_version line behind one that could be read. */
  lemma SectionRead(run: seq<Line>, rest: seq<Line>, os: V.Version)
    requires OneSection(run, rest)
    ensures
      var more := ModulesOf(rest, os);
      ModulesOf(run + rest, os) ==
        if VersionTwice(run) || more.None? then None
        else Some((if ShutOut(run, os) then [] else [Described(run)]) + more.value)
  {
    hide VersionTwice, Says, LastConstraints, LastValue, LastWeight, LastConflicts;
    var lines := run + rest;
    RunLengthIs(lines, lines[0].section, |run|);
    assert lines[..|run|] == run && lines[|run|..] == rest;
    SectionMeans(run[0].section, run);
    var d := SetAll(BLANK.(id := Some(run[0].section)), run);
    if d.Some? {
      AcceptedMeans(run, d.value, os);
    }
  }

  lemma AcceptedMeans(run: seq<Line>, d: Draft, os: V.Version)
    requires run != [] && d.id == Some(run[0].section) && Says(run, d)
    ensures Accepted(d, os) == if ShutOut(run, os) then [] else [Described(run)]
  {
    hide LastValue, LastConflicts, LastWeight, LastConstraints, V.Passes;
    if d.osVersion.Some? {
      var cs := d.osVersion.value;
      assert forall i :: 0 <= i < |cs| ==> cs[i] in cs;
    }
  }

  lemma {:induction false} RunLengthIs(lines: seq<Line>, section: string, k: nat)
    requires k <= |lines| && (forall i :: 0 <= i < k ==> lines[i].section == section)
    requires k < |lines| ==> lines[k].section != section
    ensures RunLength(lines, section) == k
  {
    if k > 0 {
      RunLengthIs(lines[1..], section, k - 1);
    }
  }

  // ---------- Writing and reading ----------

  function CommaJoined(items: seq<string>): string {
    if items == [] then "" else if |items| == 1 then items[0] else items[0] + "," + CommaJoined(items[1..])
  }

  predicate IsItem(s: string) {
    s != [] && forall i :: 0 <= i < |s| ==> s[i] != ','
  }

  lemma {:induction false} TokensOfJoined(items: seq<string>)
    requires forall i :: 0 <= i < |items| ==> IsItem(items[i])
    ensures VersionConstraints.Tokens(CommaJoined(items)) == items
  {
    if items == [] {
      assert VersionConstraints.Tokens("") == [];
    } else {
      hide VersionConstraints.Tokens;
      VersionConstraints.FirstToken(items[0], CommaJoined(items[1..]));
      if |items| > 1 {
        TokensOfJoined(items[1..]);
        assert [items[0]] + items[1..] == items;
      } else {
        assert [items[0]] == items;
      }
    }
  }

  function YesNo(b: bool): string {
    if b then "true" else "false"
  }

  /** A module that can be written down. */
  predicate Writable(m: Module) {
    0 <= m.weight <= 100 && forall i :: 0 <= i < |m.conflicts| ==> IsItem(m.conflicts[i])
  }

  function Three(m: Module): seq<Line>
    requires Writable(m)
  {
    [Line(m.id, "weight", VersionText.Digits(m.weight)), Line(m.id, "audio", YesNo(m.hasAudio)),
     Line(m.id, "video", YesNo(m.hasVideo))]
  }

  function Four(m: Module): seq<Line>
    requires Writable(m)
  {
    Three(m) + if m.group.None? then [] else [Line(m.id, "group", m.group.value)]
  }

  /** The section of a module: its name, the always present properties, and the others where there are any. */
  function Written(m: Module): seq<Line>
    requires Writable(m)
  {
    Four(m) + if m.conflicts == [] then [] else [Line(m.id, "conflicts", CommaJoined(m.conflicts))]
  }

  lemma WrittenDescribes(m: Module)
    requires Writable(m)
    ensures forall i :: 0 <= i < |Written(m)| ==> Written(m)[i].section == m.id && Written(m)[i].name != "os_version"
    ensures Described(Written(m)) == m
  {
    hide LastValue, LastConflicts, VersionConstraints.Tokens, CommaJoined, Weight, VersionText.Digits;
    WeightMeans(m.weight);
    ThreeDescribe(m);
    GroupDescribes(m);
    ConflictsDescribe(m);
  }

  lemma ThreeDescribe(m: Module)
    requires Writable(m)
    ensures LastValue(Three(m), "weight") == Some(VersionText.Digits(m.weight))
    ensures LastValue(Three(m), "audio") == Some(YesNo(m.hasAudio)) && LastValue(Three(m), "video") == Some(YesNo(m.hasVideo))
    ensures LastValue(Three(m), "group") == None && LastConflicts(Three(m)) == []
  {
    hide VersionText.Digits, VersionConstraints.Tokens;
    var a, b, c := Three(m)[0], Three(m)[1], Three(m)[2];
    assert Three(m) == [] + [a] + [b] + [c];
    LastSnoc([], a);
    LastSnoc([] + [a], b);
    LastSnoc([] + [a] + [b], c);
  }

  lemma GroupDescribes(m: Module)
    requires Writable(m)
    ensures LastValue(Four(m), "group") == m.group && LastConflicts(Four(m)) == LastConflicts(Three(m))
    ensures forall name :: name in {"weight", "audio", "video"} ==> LastValue(Four(m), name) == LastValue(Three(m), name)
  {
    hide LastValue, LastConflicts, Three;
    if m.group.Some? {
      LastSnoc(Three(m), Line(m.id, "group", m.group.value));
    } else {
      assert Three(m) + [] == Three(m);
      ThreeDescribe(m);
    }
  }

  lemma ConflictsDescribe(m: Module)
    requires Writable(m) && LastConflicts(Four(m)) == []
    ensures LastConflicts(Written(m)) == m.conflicts
    ensures forall name :: name in {"weight", "audio", "video", "group"} ==> LastValue(Written(m), name) == LastValue(Four(m), name)
  {
    hide LastValue, LastConflicts, Four, VersionConstraints.Tokens, CommaJoined;
    TokensOfJoined(m.conflicts);
    if m.conflicts != [] {
      LastSnoc(Four(m), Line(m.id, "conflicts", CommaJoined(m.conflicts)));
    } else {
      assert Four(m) + [] == Four(m);
    }
  }

  lemma {:induction false} NoVersion(lines: seq<Line>)
    requires forall i :: 0 <= i < |lines| ==> lines[i].name != "os_version"
    ensures LastConstraints(lines).None? && !VersionTwice(lines)
    decreases |lines|
  {
    if lines != [] {
      NoVersion(lines[..|lines| - 1]);
    }
  }

  /** The file of a list of modules. */
  function WrittenAll(ms: seq<Module>): seq<Line>
    requires forall i :: 0 <= i < |ms| ==> Writable(ms[i])
  {
    if ms == [] then [] else Written(ms[0]) + WrittenAll(ms[1..])
  }

  /** A written list of modules is read back, if no two modules next to each other have one name; every version of the
      system is let in. */
  lemma {:induction false} ReadUndoesWritten(ms: seq<Module>, os: V.Version)
    requires forall i :: 0 <= i < |ms| ==> Writable(ms[i])
    requires forall i :: 0 < i < |ms| ==> ms[i].id != ms[i - 1].id
    ensures ModulesOf(WrittenAll(ms), os) == Some(ms)
  {
    if ms != [] {
      hide Writable;
      ReadUndoesWritten(ms[1..], os);
      if |ms| > 1 {
        StartsWith(ms[1..]);
      }
      hide WrittenAll;
      ModuleRead(ms[0], WrittenAll(ms[1..]), os);
      assert [ms[0]] + ms[1..] == ms;
    }
  }

  lemma ModuleRead(m: Module, rest: seq<Line>, os: V.Version)
    requires Writable(m) && (rest != [] ==> rest[0].section != m.id) && ModulesOf(rest, os).Some?
    ensures ModulesOf(Written(m) + rest, os) == Some([m] + ModulesOf(rest, os).value)
  {
    WrittenDescribes(m);
    NoVersion(Written(m));
    assert Written(m) != [];
    hide ModulesOf, Described, LastConstraints, VersionTwice, Written;
    SectionRead(Written(m), rest, os);
  }

  lemma StartsWith(ms: seq<Module>)
    requires ms != [] && forall i :: 0 <= i < |ms| ==> Writable(ms[i])
    ensures WrittenAll(ms) != [] && WrittenAll(ms)[0].section == ms[0].id
  {
    hide VersionText.Digits;
    assert Written(ms[0])[0] == Three(ms[0])[0];
  }
}
