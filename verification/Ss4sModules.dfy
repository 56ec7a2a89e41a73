/** Choosing the media modules (media/ss4s/modules-list/ss4s_modules.c). */
module Ss4sModules {

  datatype Option<T> = None | Some(value: T)

  datatype Module = Module(id: string, group: Option<string>, weight: int, hasAudio: bool, hasVideo: bool,
                           conflicts: seq<string>)

  /** SS4S_ModuleCheckFlag */
  datatype Flags = Flags(video: bool, audio: bool)

  /** SS4S_ModuleCheck: which of the requested capabilities work. */
  type Oracle = (string, Flags) -> Flags

  /** The preferences; a missing preference record has neither. */
  datatype Preferences = Preferences(audio: Option<string>, video: Option<string>)

  /** preference_auto */
  predicate Auto(p: Option<string>) {
    p.None? || p.value == "auto"
  }

  predicate Named(m: Module, name: string) {
    name == m.id || m.group == Some(name)
  }

  /** m lists the other module, or its group. */
  predicate Lists(m: Module, other: Module) {
    exists i :: 0 <= i < |m.conflicts| && Named(other, m.conflicts[i])
  }

  /** What SS4S_ModuleInfoConflicts decides. */
  predicate Conflicting(a: Module, b: Module) {
    Lists(a, b) || Lists(b, a)
  }

  /** SS4S_ModuleInfoConflicts */
  method ModuleInfoConflicts(a: Module, b: Module) returns (r: bool)
    ensures r <==> Conflicting(a, b)
  {
    var i := 0;
    while i < |a.conflicts|
      invariant 0 <= i <= |a.conflicts| && forall j :: 0 <= j < i ==> !Named(b, a.conflicts[j])
    {
      if Named(b, a.conflicts[i]) {
        return true;
      }
      i := i + 1;
    }
    i := 0;
    while i < |b.conflicts|
      invariant 0 <= i <= |b.conflicts| && forall j :: 0 <= j < i ==> !Named(a, b.conflicts[j])
    {
      if Named(a, b.conflicts[i]) {
        return true;
      }
      i := i + 1;
    }
    return false;
  }

  /** Two modules conflict if one of them lists the other's id or group. */
  lemma ConflictingMeans(a: Module, b: Module)
    ensures Conflicting(a, b) <==>
            || b.id in a.conflicts || (b.group.Some? && b.group.value in a.conflicts)
            || a.id in b.conflicts || (a.group.Some? && a.group.value in b.conflicts)
  {
    ListsMeans(a, b);
    ListsMeans(b, a);
  }

  lemma ListsMeans(m: Module, other: Module)
    ensures Lists(m, other) <==> other.id in m.conflicts || (other.group.Some? && other.group.value in m.conflicts)
  {
    if other.id in m.conflicts {
      var i :| 0 <= i < |m.conflicts| && m.conflicts[i] == other.id;
      assert Named(other, m.conflicts[i]);
    }
    if other.group.Some? && other.group.value in m.conflicts {
      var i :| 0 <= i < |m.conflicts| && m.conflicts[i] == other.group.value;
      assert Named(other, m.conflicts[i]);
    }
  }

  /** The index of the first module with a name, if any. */
  ghost predicate FirstNamed(ms: seq<Module>, name: string, k: Option<nat>) {
    match k
    case Some(i) => i < |ms| && Named(ms[i], name) && forall j :: 0 <= j < i ==> !Named(ms[j], name)
    case None => forall j :: 0 <= j < |ms| ==> !Named(ms[j], name)
  }

  /** A name finds a module by its id or by its group, the first one that has it. */
  lemma FirstNamedMeans(ms: seq<Module>, name: string, i: nat)
    requires i < |ms|
    ensures FirstNamed(ms, name, Some(i)) <==>
            && (ms[i].id == name || ms[i].group == Some(name))
            && forall j :: 0 <= j < i ==> ms[j].id != name && ms[j].group != Some(name)
    ensures FirstNamed(ms, name, None) <==> forall m :: m in ms ==> m.id != name && m.group != Some(name)
  {
    assert ms[i] in ms;
    if FirstNamed(ms, name, None) {
      forall m | m in ms
        ensures m.id != name && m.group != Some(name)
      {
        var j :| 0 <= j < |ms| && ms[j] == m;
        assert !Named(ms[j], name);
      }
    } else {
      var j :| 0 <= j < |ms| && Named(ms[j], name);
      assert ms[j] in ms;
    }
  }

  /** module_by_id */
  method ModuleById(ms: seq<Module>, name: string) returns (k: Option<nat>)
    ensures FirstNamed(ms, name, k)
  {
    var i := 0;
    while i < |ms|
      invariant 0 <= i <= |ms| && forall j :: 0 <= j < i ==> !Named(ms[j], name)
    {
      if Named(ms[i], name) {
        return Some(i);
      }
      i := i + 1;
    }
    return None;
  }

  // ---------- What is to be chosen ----------

  /** What is asked of a module that is to do video: audio as well if it can and no other module is preferred. */
  function Wanted(m: Module, prefs: Preferences): Flags {
    Flags(true, m.hasAudio && Auto(prefs.audio))
  }

  function Checked(m: Module, want: Flags, check: Oracle, checkModule: bool): Flags {
    if checkModule then check(m.id, want) else want
  }

  /** A module can be chosen for video. */
  predicate VideoOk(m: Module, prefs: Preferences, check: Oracle, checkModule: bool) {
    m.hasVideo && Checked(m, Wanted(m, prefs), check, checkModule).video
  }

  /** A module that was asked to do video does audio along with it. */
  predicate Both(m: Module, prefs: Preferences, check: Oracle, checkModule: bool) {
    Checked(m, Wanted(m, prefs), check, checkModule).audio
  }

  predicate AudioWorks(m: Module, check: Oracle) {
    check(m.id, Flags(false, true)) != Flags(false, false)
  }

  /** A module can be chosen for audio beside the chosen video module. */
  predicate AudioOk(ms: seq<Module>, m: Module, video: Option<nat>, check: Oracle, checkModule: bool)
    requires video.Some? ==> video.value < |ms|
  {
    m.hasAudio && (checkModule ==> (video.Some? ==> !Conflicting(ms[video.value], m)) && AudioWorks(m, check))
  }

  /** The video module: the preferred one if it will do, else the first that will. */
  ghost predicate VideoChoice(ms: seq<Module>, prefs: Preferences, check: Oracle, checkModule: bool, video: Option<nat>) {
    if !Auto(prefs.video) && exists p :: 0 <= p < |ms| && FirstNamed(ms, prefs.video.value, Some(p))
                                         && VideoOk(ms[p], prefs, check, checkModule)
    then video.Some? && FirstNamed(ms, prefs.video.value, video)
    else FirstVideo(ms, prefs, check, checkModule, video)
  }

  ghost predicate FirstVideo(ms: seq<Module>, prefs: Preferences, check: Oracle, checkModule: bool, video: Option<nat>) {
    match video
    case Some(v) => v < |ms| && VideoOk(ms[v], prefs, check, checkModule)
                    && forall i :: 0 <= i < v ==> !VideoOk(ms[i], prefs, check, checkModule)
    case None => forall i :: 0 <= i < |ms| ==> !VideoOk(ms[i], prefs, check, checkModule)
  }

  /** The preferred audio module will do; if modules are checked, this takes a video module. */
  ghost predicate PreferredAudio(ms: seq<Module>, prefs: Preferences, check: Oracle, checkModule: bool,
                                 video: Option<nat>, p: nat)
    requires video.Some? ==> video.value < |ms|
  {
    && !Auto(prefs.audio) && p < |ms| && FirstNamed(ms, prefs.audio.value, Some(p))
    && AudioOk(ms, ms[p], video, check, checkModule) && (checkModule ==> video.Some?)
  }

  /** The audio module: the preferred one if it will do, else the video module if it does both, else the first
      that will do. */
  ghost predicate AudioChoice(ms: seq<Module>, prefs: Preferences, check: Oracle, checkModule: bool,
                              video: Option<nat>, audio: Option<nat>)
    requires video.Some? ==> video.value < |ms|
  {
    if exists p :: PreferredAudio(ms, prefs, check, checkModule, video, p)
    then audio.Some? && PreferredAudio(ms, prefs, check, checkModule, video, audio.value)
    else if video.Some? && Both(ms[video.value], prefs, check, checkModule) then audio == video
    else FirstAudio(ms, check, checkModule, video, audio)
  }

  ghost predicate FirstAudio(ms: seq<Module>, check: Oracle, checkModule: bool, video: Option<nat>, audio: Option<nat>)
    requires video.Some? ==> video.value < |ms|
  {
    match audio
    case Some(a) => a < |ms| && AudioOk(ms, ms[a], video, check, checkModule)
                    && forall i :: 0 <= i < a ==> !AudioOk(ms, ms[i], video, check, checkModule)
    case None => forall i :: 0 <= i < |ms| ==> !AudioOk(ms, ms[i], video, check, checkModule)
  }

  // ---------- SS4S_ModulesSelect ----------

  method SelectVideo(ms: seq<Module>, prefs: Preferences, check: Oracle, checkModule: bool)
    returns (video: Option<nat>, audio: Option<nat>)
    ensures VideoChoice(ms, prefs, check, checkModule, video)
    ensures video.Some? ==> video.value < |ms|
    ensures audio == if video.Some? && Both(ms[video.value], prefs, check, checkModule) then video else None
  {
    video, audio := None, None;
    if !Auto(prefs.video) {
      var selected := ModuleById(ms, prefs.video.value);
      if selected.Some? && ms[selected.value].hasVideo {
        var flags := Wanted(ms[selected.value], prefs);
        if checkModule {
          flags := check(ms[selected.value].id, flags);
        }
        if flags.video {
          return selected, if flags.audio then selected else None;
        }
      }
    }
    var i := 0;
    while i < |ms|
      invariant 0 <= i <= |ms| && forall j :: 0 <= j < i ==> !VideoOk(ms[j], prefs, check, checkModule)
    {
      if ms[i].hasVideo {
        var flags := Wanted(ms[i], prefs);
        if checkModule {
          flags := check(ms[i].id, flags);
        }
        if flags.video {
          return Some(i), if flags.audio then Some(i) else None;
        }
      }
      i := i + 1;
    }
  }

  method SelectAudio(ms: seq<Module>, prefs: Preferences, check: Oracle, checkModule: bool,
                     video: Option<nat>, before: Option<nat>) returns (audio: Option<nat>)
    requires video.Some? ==> video.value < |ms|
    requires before == if video.Some? && Both(ms[video.value], prefs, check, checkModule) then video else None
    ensures AudioChoice(ms, prefs, check, checkModule, video, audio)
    ensures audio.Some? ==> audio.value < |ms|
  {
    audio := before;
    if !Auto(prefs.audio) {
      var selected := ModuleById(ms, prefs.audio.value);
      if selected.Some? && ms[selected.value].hasAudio {
        var ok := !checkModule;
        if checkModule && video.Some? {
          var conflict := ModuleInfoConflicts(ms[video.value], ms[selected.value]);
          ok := !conflict && AudioWorks(ms[selected.value], check);
        }
        if ok {
          assert PreferredAudio(ms, prefs, check, checkModule, video, selected.value);
          return selected;
        }
      }
    }
    if audio.Some? {
      return;
    }
    var i := 0;
    while i < |ms|
      invariant 0 <= i <= |ms| && forall j :: 0 <= j < i ==> !AudioOk(ms, ms[j], video, check, checkModule)
    {
      var conflict := false;
      if checkModule && video.Some? {
        conflict := ModuleInfoConflicts(ms[video.value], ms[i]);
      }
      if ms[i].hasAudio && !conflict && (!checkModule || AudioWorks(ms[i], check)) {
        return Some(i);
      }
      i := i + 1;
    }
  }

  /** SS4S_ModulesSelect */
  method ModulesSelect(ms: seq<Module>, prefs: Preferences, check: Oracle, checkModule: bool)
    returns (ok: bool, video: Option<nat>, audio: Option<nat>)
    ensures VideoChoice(ms, prefs, check, checkModule, video)
    ensures (video.Some? ==> video.value < |ms|) && AudioChoice(ms, prefs, check, checkModule, video, audio)
    ensures ok <==> video.Some? && audio.Some?
  {
    var both;
    video, both := SelectVideo(ms, prefs, check, checkModule);
    audio := SelectAudio(ms, prefs, check, checkModule, video, both);
    ok := audio.Some? && video.Some?;
  }

  // ---------- What a selection is worth ----------

  /** A selection as ModulesSelect makes it. */
  ghost predicate Selection(ms: seq<Module>, prefs: Preferences, check: Oracle, checkModule: bool, v: nat, a: nat) {
    && v < |ms| && a < |ms|
    && VideoChoice(ms, prefs, check, checkModule, Some(v)) && AudioChoice(ms, prefs, check, checkModule, Some(v), Some(a))
  }

  /** The choice is determined: no two selections meet the description. */
  lemma ChoiceUnique(ms: seq<Module>, prefs: Preferences, check: Oracle, checkModule: bool,
                     v: Option<nat>, a: Option<nat>, v': Option<nat>, a': Option<nat>)
    requires VideoChoice(ms, prefs, check, checkModule, v) && VideoChoice(ms, prefs, check, checkModule, v')
    requires v.Some? ==> v.value < |ms| && AudioChoice(ms, prefs, check, checkModule, v, a)
    requires v'.Some? ==> v'.value < |ms| && AudioChoice(ms, prefs, check, checkModule, v', a')
    ensures v == v' && (v.Some? ==> a == a')
  {
    if v.Some? && v'.Some? {
      assert v.value == v'.value;
    }
  }

  /** The check answers with requested capabilities only. */
  ghost predicate Honest(check: Oracle) {
    forall id, f :: (check(id, f).video ==> f.video) && (check(id, f).audio ==> f.audio)
  }

  /** With checks, both chosen modules have the capability they are chosen for and passed the check for it, and they are
      one module or do not conflict. */
  lemma SelectionSound(ms: seq<Module>, prefs: Preferences, check: Oracle, v: nat, a: nat)
    requires Honest(check) && Selection(ms, prefs, check, true, v, a)
    ensures ms[v].hasVideo && check(ms[v].id, Wanted(ms[v], prefs)).video
    ensures ms[a].hasAudio
    ensures (a == v && check(ms[a].id, Wanted(ms[a], prefs)).audio) || check(ms[a].id, Flags(false, true)).audio
    ensures a == v || !Conflicting(ms[v], ms[a])
  {
    var flags := check(ms[a].id, Flags(false, true));
    assert !flags.video;
  }

  /** A module is asked to do video, and audio along with it if it can and audio is left to the selection; it can be chosen
      for video if it can do that and answers so. */
  lemma VideoOkMeans(m: Module, prefs: Preferences, check: Oracle, checkModule: bool)
    ensures VideoOk(m, prefs, check, checkModule) <==>
            m.hasVideo && (checkModule ==> check(m.id, Flags(true, m.hasAudio && (prefs.audio.None? || prefs.audio.value == "auto"))).video)
  {
  }

  /** The module chosen for video does audio as well. */
  predicate DoesBoth(m: Module, check: Oracle, checkModule: bool) {
    m.hasAudio && (checkModule ==> check(m.id, Flags(true, true)).audio)
  }

  /** One module is chosen for both exactly if it is the preferred audio module, or there is none that will do and it either
      does both at once, however heavy the modules in front of it are that do audio, or comes first for audio alone. */
  lemma OneModuleExactly(ms: seq<Module>, prefs: Preferences, check: Oracle, checkModule: bool, v: nat, a: nat)
    requires Honest(check) && Selection(ms, prefs, check, checkModule, v, a)
    ensures a == v <==>
            || PreferredAudio(ms, prefs, check, checkModule, Some(v), v)
            || ((forall p :: !PreferredAudio(ms, prefs, check, checkModule, Some(v), p))
                && (((prefs.audio.None? || prefs.audio.value == "auto") && DoesBoth(ms[v], check, checkModule))
                    || FirstAudio(ms, check, checkModule, Some(v), Some(v))))
  {
    assert Both(ms[v], prefs, check, checkModule) <==>
      (prefs.audio.None? || prefs.audio.value == "auto") && DoesBoth(ms[v], check, checkModule);
  }

  /** For example a module that does both is chosen for both beside a heavier one that only does audio. */
  lemma BothInOne(check: Oracle)
    ensures
      var ms := [Module("a", None, 2, true, false, []), Module("b", None, 1, true, true, [])];
      Sorted(ms) && Selection(ms, Preferences(None, None), check, false, 1, 1)
  {
  }

  /** Without checks two conflicting modules may be chosen. */
  lemma UncheckedMayConflict(check: Oracle)
    ensures
      var ms := [Module("v", None, 2, false, true, ["a"]), Module("a", None, 1, true, false, [])];
      Selection(ms, Preferences(None, None), check, false, 0, 1) && Conflicting(ms[0], ms[1])
  {
    var ms := [Module("v", None, 2, false, true, ["a"]), Module("a", None, 1, true, false, [])];
    assert Named(ms[1], ms[0].conflicts[0]);
  }

  /** The modules are ordered as module_weight_compare_fn orders them: by falling weight first. */
  ghost predicate Sorted(ms: seq<Module>) {
    forall i, j :: 0 <= i < j < |ms| ==> WeightCompare(ms[i], ms[j]) <= 0
  }

  /** SS4S_ModuleInfoGetGroup */
  function GroupOf(m: Module): string {
    if m.group.None? then m.id else m.group.value
  }

  /** strcmp, up to the size of the result. */
  function StrCmp(s: string, t: string): int {
    if s == [] then (if t == [] then 0 else -1)
    else if t == [] then 1
    else if s[0] < t[0] then -1
    else if s[0] > t[0] then 1
    else StrCmp(s[1..], t[1..])
  }

  /** module_weight_compare_fn */
  function WeightCompare(a: Module, b: Module): int {
    if b.weight != a.weight then b.weight - a.weight else StrCmp(GroupOf(a), GroupOf(b))
  }

  lemma {:induction false} StrCmpOrder(r: string, s: string, t: string)
    ensures StrCmp(r, s) <= 0 <==> StrCmp(s, r) >= 0
    ensures StrCmp(r, s) <= 0 && StrCmp(s, t) <= 0 ==> StrCmp(r, t) <= 0
    ensures StrCmp(r, s) == 0 <==> r == s
  {
    if r != [] && s != [] {
      StrCmpOrder(r[1..], s[1..], if t == [] then t else t[1..]);
      assert r == [r[0]] + r[1..] && s == [s[0]] + s[1..];
    }
  }

  /** The first character in which they differ decides, else the one that ends first is the lesser. */
  lemma {:induction false} StrCmpMeans(s: string, t: string)
    ensures StrCmp(s, t) < 0 <==>
            || (|s| < |t| && s <= t)
            || exists k :: 0 <= k < |s| && k < |t| && s[..k] == t[..k] && s[k] < t[k]
  {
    if s != [] && t != [] {
      StrCmpMeans(s[1..], t[1..]);
      if s[0] == t[0] {
        PrefixTail(s, t);
        if k :| 0 <= k < |s[1..]| && k < |t[1..]| && s[1..][..k] == t[1..][..k] && s[1..][k] < t[1..][k] {
          PrefixCons(s, t, k);
        }
        if k :| 0 <= k < |s| && k < |t| && s[..k] == t[..k] && s[k] < t[k] {
          PrefixDrop(s, t, k);
        }
      } else {
        FirstDiffers(s, t);
      }
    }
  }

  lemma FirstDiffers(s: string, t: string)
    requires s != [] && t != [] && s[0] != t[0]
    ensures !(s <= t)
    ensures (exists k :: 0 <= k < |s| && k < |t| && s[..k] == t[..k] && s[k] < t[k]) <==> s[0] < t[0]
  {
    assert s[..0] == t[..0];
    assert forall k :: 0 < k < |s| && k < |t| ==> s[..k][0] == s[0] && t[..k][0] == t[0];
  }

  lemma PrefixTail(s: string, t: string)
    requires s != [] && t != [] && s[0] == t[0]
    ensures s <= t <==> s[1..] <= t[1..]
  {
    if s[1..] <= t[1..] {
      assert s == [s[0]] + s[1..] && t == [t[0]] + t[1..];
    }
  }

  lemma PrefixCons(s: string, t: string, k: nat)
    requires s != [] && t != [] && s[0] == t[0] && k < |s| - 1 && k < |t| - 1
    requires s[1..][..k] == t[1..][..k] && s[1..][k] < t[1..][k]
    ensures s[..k + 1] == t[..k + 1] && s[k + 1] < t[k + 1]
  {
    assert s[..k + 1] == [s[0]] + s[1..][..k] && t[..k + 1] == [t[0]] + t[1..][..k];
  }

  lemma PrefixDrop(s: string, t: string, k: nat)
    requires s != [] && t != [] && s[0] == t[0] && k < |s| && k < |t| && s[..k] == t[..k] && s[k] < t[k]
    ensures k > 0 && s[1..][..k - 1] == t[1..][..k - 1] && s[1..][k - 1] < t[1..][k - 1]
  {
    assert s[1..][..k - 1] == s[..k][1..] && t[1..][..k - 1] == t[..k][1..];
  }

  /** The comparison is a proper order for qsort: it is total, its sign is antisymmetric, and it is transitive. */
  lemma WeightCompareOrder(a: Module, b: Module, c: Module)
    ensures WeightCompare(a, b) <= 0 <==> WeightCompare(b, a) >= 0
    ensures WeightCompare(a, b) <= 0 && WeightCompare(b, c) <= 0 ==> WeightCompare(a, c) <= 0
    ensures WeightCompare(a, b) == 0 <==> a.weight == b.weight && GroupOf(a) == GroupOf(b)
  {
    StrCmpOrder(GroupOf(a), GroupOf(b), GroupOf(c));
  }

  /** From a sorted list no module that would do for video is heavier than the chosen one, if none is preferred, and no
      module that would do for audio beside it is heavier than an audio module chosen separately, if none is preferred. */
  lemma SelectionHeaviest(ms: seq<Module>, prefs: Preferences, check: Oracle, checkModule: bool, v: nat, a: nat, i: nat)
    requires Sorted(ms) && Selection(ms, prefs, check, checkModule, v, a) && i < |ms|
    ensures Auto(prefs.video) && VideoOk(ms[i], prefs, check, checkModule) ==> ms[i].weight <= ms[v].weight
    ensures Auto(prefs.audio) && a != v && AudioOk(ms, ms[i], Some(v), check, checkModule) ==> ms[i].weight <= ms[a].weight
  {
    if v < i {
      assert WeightCompare(ms[v], ms[i]) <= 0;
    }
    if a < i {
      assert WeightCompare(ms[a], ms[i]) <= 0;
    }
  }

  /** Whatever the preferences, a video module is found exactly if some module would do, and the selection succeeds exactly
      if the video module found does audio as well or leaves some module that would do for audio. */
  lemma SucceedsExactly(ms: seq<Module>, prefs: Preferences, check: Oracle, checkModule: bool,
                        video: Option<nat>, audio: Option<nat>)
    requires VideoChoice(ms, prefs, check, checkModule, video)
    requires (video.Some? ==> video.value < |ms|) && AudioChoice(ms, prefs, check, checkModule, video, audio)
    ensures video.Some? <==> exists i :: 0 <= i < |ms| && VideoOk(ms[i], prefs, check, checkModule)
    ensures video.Some? ==>
      (audio.Some? <==>
        || Both(ms[video.value], prefs, check, checkModule)
        || exists i :: 0 <= i < |ms| && AudioOk(ms, ms[i], video, check, checkModule))
  {
    if audio.Some? && video.Some? {
      assert Both(ms[video.value], prefs, check, checkModule)
        || AudioOk(ms, ms[audio.value], video, check, checkModule);
    }
  }

  /** It may fail although two modules would go together: the first video module conflicts with the only audio module, and
      the second is not tried. */
  lemma GreedyMissesAPair()
    ensures
      var ms := [Module("v", None, 3, false, true, ["a"]), Module("w", None, 2, false, true, []),
                 Module("a", None, 1, true, false, [])];
      var prefs := Preferences(None, None);
      var check: Oracle := (id, f) => f;
      && Sorted(ms) && VideoChoice(ms, prefs, check, true, Some(0)) && AudioChoice(ms, prefs, check, true, Some(0), None)
      && VideoOk(ms[1], prefs, check, true) && AudioOk(ms, ms[2], Some(1), check, true)
  {
    var ms := [Module("v", None, 3, false, true, ["a"]), Module("w", None, 2, false, true, []),
               Module("a", None, 1, true, false, [])];
    assert Named(ms[2], ms[0].conflicts[0]);
    assert !Lists(ms[1], ms[2]) && !Lists(ms[2], ms[1]);
  }
}
