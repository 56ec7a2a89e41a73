/** Reading the list of media modules from its ini file (media/ss4s/modules-list/ss4s_modules.c). */
module Ss4sIni {
  import V = VersionInfo
  import VersionText
  import VersionConstraints
  import opened Ss4sModules

  /** One call of modules_ini_handler. */
  datatype Line = Line(section: string, name: string, value: string)

  /** The module that is being read; osVersion is None while there are no elements. */
  datatype Draft = Draft(id: Option<string>, group: Option<string>, weight: int, hasAudio: bool, hasVideo: bool,
                         conflicts: seq<string>, osVersion: Option<seq<V.Constraint>>)

  const BLANK := Draft(None, None, 0, false, false, [], None)

  /** The weight that is kept, between 0 and 100. */
  function Weight(value: string): (w: int)
    ensures 0 <= w <= 100
  {
    var w := VersionText.ToInt(VersionText.Strtol(value).0);
    if w < 0 then 0 else if w > 100 then 100 else w
  }

  /** str_list_parse: an empty list leaves what was there. */
  function ListOr(value: string, was: seq<string>): seq<string> {
    var items := VersionConstraints.Tokens(value);
    if items == [] then was else items
  }

  /** One property of a section; None where the assertion in version_constraints_parse fails. */
  function SetProperty(d: Draft, name: string, value: string): Option<Draft> {
    if name == "group" then Some(d.(group := Some(value)))
    else if name == "weight" then Some(d.(weight := Weight(value)))
    else if name == "audio" then Some(d.(hasAudio := value == "true"))
    else if name == "video" then Some(d.(hasVideo := value == "true"))
    else if name == "os_version" then
      if d.osVersion.Some? then None
      else
        var cs := VersionConstraints.ParseConstraints(value);
        Some(d.(osVersion := if cs.Some? then Some(cs.value) else None))
    else if name == "conflicts" then Some(d.(conflicts := ListOr(value, d.conflicts)))
    else Some(d)
  }

  /** The module of a section, if this system's version passes its constraints. */
  function Accepted(d: Draft, os: V.Version): seq<Module>
    requires d.id.Some?
  {
    if d.osVersion.Some? && exists i :: 0 <= i < |d.osVersion.value| && !V.Passes(d.osVersion.value[i], os) then []
    else [Module(d.id.value, d.group, d.weight, d.hasAudio, d.hasVideo, d.conflicts)]
  }

  // ---------- What the file says ----------

  /** How many lines belong to the given section, from the first one on. */
  function RunLength(lines: seq<Line>, section: string): (k: nat)
    ensures k <= |lines| && (forall i :: 0 <= i < k ==> lines[i].section == section)
    ensures k < |lines| ==> lines[k].section != section
  {
    if lines == [] || lines[0].section != section then 0 else 1 + RunLength(lines[1..], section)
  }

  function SetAll(d: Draft, lines: seq<Line>): (r: Option<Draft>)
    ensures r.Some? ==> r.value.id == d.id
    decreases |lines|
  {
    if lines == [] then Some(d)
    else
      var e := SetProperty(d, lines[0].name, lines[0].value);
      if e.None? then None else SetAll(e.value, lines[1..])
  }

  /** The modules of a file: one for each run of lines of one section, unless its os_version shuts this system out. */
  function ModulesOf(lines: seq<Line>, os: V.Version): Option<seq<Module>>
    decreases |lines|
  {
    if lines == [] then Some([])
    else
      var k := RunLength(lines, lines[0].section);
      var d := SetAll(BLANK.(id := Some(lines[0].section)), lines[..k]);
      var rest := ModulesOf(lines[k..], os);
      if d.None? || rest.None? then None else Some(Accepted(d.value, os) + rest.value)
  }

  // ---------- How it is read ----------

  class ParseContext {
    var current: Draft
    var modules: seq<Module>
    const os: V.Version

    constructor (os: V.Version)
      ensures current == BLANK && modules == [] && this.os == os
    {
      this.os := os;
      current, modules := BLANK, [];
    }

    /** section_changed */
    method SectionChanged()
      modifies this
      ensures current == (if old(current).id.None? then old(current) else BLANK)
      ensures modules == old(modules) + if old(current).id.None? then [] else Accepted(old(current), os)
    {
      if current.id.None? {
        return;
      }
      var pass := true;
      if current.osVersion.Some? {
        pass := V.CheckConstraints(current.osVersion.value, os);
        assert pass <==> !exists i :: 0 <= i < |current.osVersion.value| && !V.Passes(current.osVersion.value[i], os);
      }
      if pass {
        modules := modules + [Module(current.id.value, current.group, current.weight, current.hasAudio, current.hasVideo,
                                     current.conflicts)];
      }
      current := BLANK;
    }

    /** modules_ini_handler: false where an assertion fails. */
    method Handle(line: Line) returns (ok: bool)
      requires current.id.None? ==> current == BLANK
      modifies this
      ensures
        var same := old(current).id == Some(line.section);
        var d := SetProperty(if same then old(current) else BLANK.(id := Some(line.section)), line.name, line.value);
        && ok == d.Some?
        && (ok ==> current == d.value && current.id == Some(line.section))
        && modules == old(modules) + if same || old(current).id.None? then [] else Accepted(old(current), os)
    {
      if current.id != Some(line.section) {
        SectionChanged();
        current := current.(id := Some(line.section));
      }
      var d := SetProperty(current, line.name, line.value);
      if d.None? {
        return false;
      }
      current := d.value;
      return true;
    }

    /** The reading part of SS4S_ModulesList: every line is handled, then the last section is closed. */
    method Read(lines: seq<Line>) returns (ok: bool)
      requires current == BLANK && modules == []
      modifies this
      ensures ModulesOf(lines, os) == if ok then Some(modules) else None
    {
      hide SetProperty, Accepted, RunLength;
      var i := 0;
      assert lines[0..] == lines;
      NothingBefore(ModulesOf(lines, os));
      while i < |lines|
        invariant 0 <= i <= |lines|
        invariant current.id.None? ==> current == BLANK
        invariant ModulesOf(lines, os) == Finished(modules, current, lines[i..], os)
      {
        ghost var was, had := current, modules;
        FinishedStep(had, was, lines[i..], os);
        assert lines[i..][0] == lines[i] && lines[i..][1..] == lines[i + 1..];
        ok := Handle(lines[i]);
        if !ok {
          return;
        }
        i := i + 1;
      }
      FinishedEnd(modules, current, os);
      SectionChanged();
      ok := true;
    }
  }

  /** The modules in the end, when some have been read, one is being read and some lines are left. */
  function Finished(modules: seq<Module>, d: Draft, lines: seq<Line>, os: V.Version): Option<seq<Module>> {
    if d.id.None? then Before(modules, ModulesOf(lines, os))
    else
      var k := RunLength(lines, d.id.value);
      var e := SetAll(d, lines[..k]);
      var rest := ModulesOf(lines[k..], os);
      if e.None? then None else Before(modules + Accepted(e.value, os), rest)
  }

  function Before(modules: seq<Module>, rest: Option<seq<Module>>): Option<seq<Module>> {
    if rest.None? then None else Some(modules + rest.value)
  }

  lemma FinishedEnd(modules: seq<Module>, d: Draft, os: V.Version)
    ensures Finished(modules, d, [], os) == Some(modules + if d.id.None? then [] else Accepted(d, os))
  {
    assert modules + [] == modules;
    if d.id.Some? {
      assert modules + Accepted(d, os) + [] == modules + Accepted(d, os);
    }
  }

  lemma FinishedStep(modules: seq<Module>, d: Draft, lines: seq<Line>, os: V.Version)
    requires lines != [] && (d.id.None? ==> d == BLANK)
    ensures
      var line := lines[0];
      var same := d.id == Some(line.section);
      var e := SetProperty(if same then d else BLANK.(id := Some(line.section)), line.name, line.value);
      var had := modules + if same || d.id.None? then [] else Accepted(d, os);
      Finished(modules, d, lines, os) == if e.None? then None else Finished(had, e.value, lines[1..], os)
  {
    hide SetProperty, Accepted, ModulesOf;
    assert modules + [] == modules;
    if d.id == Some(lines[0].section) {
      RunStep(d, lines);
      KeepsId(d, lines[0].name, lines[0].value);
    } else {
      var had := modules + if d.id.None? then [] else Accepted(d, os);
      NewSection(had, lines, os);
      if d.id.Some? {
        assert RunLength(lines, d.id.value) == 0;
        assert lines[..0] == [] && lines[0..] == lines;
        assert SetAll(d, []) == Some(d);
      }
    }
  }

  /** The first line of a run, and the rest of the run. */
  lemma RunStep(d: Draft, lines: seq<Line>)
    requires lines != [] && d.id == Some(lines[0].section)
    ensures
      var k := RunLength(lines, d.id.value);
      var e := SetProperty(d, lines[0].name, lines[0].value);
      && k == 1 + RunLength(lines[1..], d.id.value) && lines[k..] == lines[1..][k - 1..]
      && SetAll(d, lines[..k]) == if e.None? then None else SetAll(e.value, lines[1..][..k - 1])
  {
    hide SetProperty;
    var k := RunLength(lines, d.id.value);
    assert lines[..k][1..] == lines[1..][..k - 1];
  }

  lemma NewSection(modules: seq<Module>, lines: seq<Line>, os: V.Version)
    requires lines != []
    ensures
      var line := lines[0];
      var e := SetProperty(BLANK.(id := Some(line.section)), line.name, line.value);
      Before(modules, ModulesOf(lines, os)) == if e.None? then None else Finished(modules, e.value, lines[1..], os)
  {
    hide SetProperty, Accepted, SetAll, RunLength;
    var d := BLANK.(id := Some(lines[0].section));
    RunStep(d, lines);
    KeepsId(d, lines[0].name, lines[0].value);
    var k := RunLength(lines, lines[0].section);
    var r, rest := SetAll(d, lines[..k]), ModulesOf(lines[k..], os);
    if r.Some? && rest.Some? {
      assert modules + (Accepted(r.value, os) + rest.value) == modules + Accepted(r.value, os) + rest.value;
    }
  }

  lemma KeepsId(d: Draft, name: string, value: string)
    ensures SetProperty(d, name, value).Some? ==> SetProperty(d, name, value).value.id == d.id
  {
  }

  lemma NothingBefore(rest: Option<seq<Module>>)
    ensures Before([], rest) == rest
  {
    if rest.Some? {
      assert [] + rest.value == rest.value;
    }
  }
}
