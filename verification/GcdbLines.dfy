/** Rewriting the lines of the game controller database (device/gcdb-updater/gamecontrollerdb_updater.c), on values. */
module GcdbLines {

  /** What a C string function sees of some characters: everything in front of the first NUL. */
  function CString(s: string): (r: string)
    ensures r <= s && '\0' !in r
    ensures |r| < |s| ==> s[|r|] == '\0'
  {
    if s == [] || s[0] == '\0' then [] else [s[0]] + CString(s[1..])
  }

  /** The first k characters of s are not newlines. */
  predicate OneLine(s: string, k: nat)
    requires k <= |s|
  {
    forall i :: 0 <= i < k ==> s[i] != '\n'
  }

  /** Where the first newline is, or |s| (memchr). */
  function Newline(s: string): (k: nat)
    ensures k <= |s| && OneLine(s, k) && (k < |s| ==> s[k] == '\n')
  {
    if s == [] || s[0] == '\n' then 0 else 1 + Newline(s[1..])
  }

  /** p is found in s at i. */
  predicate Occurs(s: string, p: string, i: int) {
    0 <= i && i + |p| <= |s| && s[i..i + |p|] == p
  }

  /** Where p first occurs in s, or -1 (strstr). */
  function Find(s: string, p: string): (k: int)
    ensures k == -1 || Occurs(s, p, k)
    ensures forall i :: Occurs(s, p, i) ==> 0 <= k <= i
  {
    if |s| < |p| then -1
    else if s[..|p|] == p then
      assert Occurs(s, p, 0);
      0
    else
      var k := Find(s[1..], p);
      OccursLater(s, p);
      if k < 0 then -1 else 1 + k
  }

  lemma OccursLater(s: string, p: string)
    requires s != []
    ensures forall i :: i >= 1 ==> (Occurs(s, p, i) <==> Occurs(s[1..], p, i - 1))
  {
    forall i | i >= 1
      ensures Occurs(s, p, i) <==> Occurs(s[1..], p, i - 1)
    {
      if i + |p| <= |s| {
        SliceOfTail(s, i, i + |p|);
      }
    }
  }

  lemma SliceOfTail(s: string, i: nat, j: nat)
    requires 1 <= i <= j <= |s|
    ensures s[1..][i - 1..j - 1] == s[i..j]
  {
  }

  /** The field the updater looks for. */
  function Field(platform: string): string {
    "platform:" + platform + ","
  }

  /** What is written for one line. */
  function Rewritten(line: string, field: string, platform: string): string {
    var s := CString(line);
    var k := Find(s, field);
    if k < 0 then "" else s[..k] + s[k + |field|..] + Field(platform) + "\n"
  }

  /** The lines of s that are complete. */
  function Lines(s: string): seq<string> {
    var k := Newline(s);
    if k == |s| then [] else [s[..k]] + Lines(s[k + 1..])
  }

  /** What follows the last newline. */
  function Trailing(s: string): string {
    var k := Newline(s);
    if k == |s| then s else Trailing(s[k + 1..])
  }

  /** All lines rewritten. */
  function Output(lines: seq<string>, field: string, platform: string): string {
    if lines == [] then "" else Rewritten(lines[0], field, platform) + Output(lines[1..], field, platform)
  }

  function Joined(lines: seq<string>): string {
    if lines == [] then "" else lines[0] + "\n" + Joined(lines[1..])
  }

  function Concat(chunks: seq<string>): string {
    if chunks == [] then "" else chunks[0] + Concat(chunks[1..])
  }

  // ---------- What the functions mean ----------

  lemma {:induction false} FirstNewline(s: string, k: nat)
    requires k <= |s| && OneLine(s, k) && (k < |s| ==> s[k] == '\n')
    ensures Newline(s) == k
  {
    if k > 0 {
      FirstNewline(s[1..], k - 1);
    }
  }

  /** The lines of a text that starts with a complete line, and of one that does not. */
  lemma FirstLine(s: string, k: nat)
    requires k < |s| && OneLine(s, k) && s[k] == '\n'
    ensures Lines(s) == [s[..k]] + Lines(s[k + 1..]) && Trailing(s) == Trailing(s[k + 1..])
  {
    FirstNewline(s, k);
  }

  lemma NoLine(s: string)
    requires OneLine(s, |s|)
    ensures Lines(s) == [] && Trailing(s) == s
  {
    FirstNewline(s, |s|);
  }

  /** Lines and the trailing part are the one way to cut s at its newlines. */
  lemma {:induction false} LinesSplit(s: string)
    ensures Joined(Lines(s)) + Trailing(s) == s
    ensures OneLine(Trailing(s), |Trailing(s)|)
    ensures forall i :: 0 <= i < |Lines(s)| ==> OneLine(Lines(s)[i], |Lines(s)[i]|)
  {
    hide Lines, Trailing;
    var k := Newline(s);
    if k < |s| {
      LinesSplit(s[k + 1..]);
      FirstLine(s, k);
      JoinedCons(s[..k], Lines(s[k + 1..]));
      assert s == s[..k] + "\n" + s[k + 1..];
    } else {
      NoLine(s);
    }
  }

  lemma JoinedCons(line: string, lines: seq<string>)
    ensures Joined([line] + lines) == line + "\n" + Joined(lines)
  {
    assert ([line] + lines)[1..] == lines;
  }

  lemma {:induction false} LinesOfJoined(lines: seq<string>, rest: string)
    requires OneLine(rest, |rest|) && forall i :: 0 <= i < |lines| ==> OneLine(lines[i], |lines[i]|)
    ensures Lines(Joined(lines) + rest) == lines && Trailing(Joined(lines) + rest) == rest
  {
    hide Lines, Trailing;
    var s := Joined(lines) + rest;
    if lines == [] {
      assert s == rest;
      NoLine(rest);
    } else {
      LinesOfJoined(lines[1..], rest);
      var k := |lines[0]|;
      assert s[..k] == lines[0] && s[k + 1..] == Joined(lines[1..]) + rest;
      FirstLine(s, k);
    }
  }

  lemma {:induction false} CStringWhole(s: string)
    requires '\0' !in s
    ensures CString(s) == s
  {
    if s != [] {
      CStringWhole(s[1..]);
    }
  }

  /** Of a line without NUL, the first occurrence of the field is taken out and the field for this
      platform is put at the end; a line without the field is dropped. */
  lemma RewrittenMeans(line: string, field: string, platform: string)
    requires '\0' !in line
    ensures
      || (Rewritten(line, field, platform) == "" && forall a, b: string :: line != a + field + b)
      || exists a, b: string ::
           && line == a + field + b && Rewritten(line, field, platform) == a + b + ("platform:" + platform + ",") + "\n"
           && forall a', b': string :: line == a' + field + b' ==> |a| <= |a'|
  {
    assert Field(platform) == "platform:" + platform + ",";
    hide CString, Find, Field;
    CStringWhole(line);
    var k := Find(line, field);
    forall a', b': string | line == a' + field + b'
      ensures 0 <= k <= |a'|
    {
      assert Occurs(line, field, |a'|);
    }
    if k >= 0 {
      var a, b := line[..k], line[k + |field|..];
      assert line == a + field + b;
    }
  }

  // ---------- Chunks ----------

  lemma {:induction false} OutputConcat(a: seq<string>, b: seq<string>, field: string, platform: string)
    ensures Output(a + b, field, platform) == Output(a, field, platform) + Output(b, field, platform)
  {
    hide Rewritten;
    if a == [] {
      assert a + b == b;
    } else {
      OutputConcat(a[1..], b, field, platform);
      assert (a + b)[1..] == a[1..] + b;
    }
  }

  lemma {:induction false} LinesOfConcat(s: string, t: string)
    ensures Lines(s + t) == Lines(s) + Lines(Trailing(s) + t)
    ensures Trailing(s + t) == Trailing(Trailing(s) + t)
  {
    hide Lines, Trailing;
    var k := Newline(s);
    if k < |s| {
      LinesOfConcat(s[k + 1..], t);
      FirstLine(s, k);
      assert (s + t)[..k] == s[..k] && (s + t)[k + 1..] == s[k + 1..] + t;
      FirstLine(s + t, k);
    } else {
      NoLine(s);
    }
  }

  /** The buffer and the output after body_cb has been given the chunks one after the other. */
  function Fed(buf: string, chunks: seq<string>, field: string, platform: string): (r: (string, string))
    decreases |chunks|
  {
    if chunks == [] then (buf, "")
    else
      var r := Fed(Trailing(buf + chunks[0]), chunks[1..], field, platform);
      (r.0, Output(Lines(buf + chunks[0]), field, platform) + r.1)
  }

  /** However a body is cut into chunks, the output is that of its complete lines, and what follows the
      last newline stays in the buffer, unwritten. */
  lemma {:induction false} ChunksDoNotMatter(buf: string, chunks: seq<string>, field: string, platform: string)
    requires OneLine(buf, |buf|)
    ensures Fed(buf, chunks, field, platform)
            == (Trailing(buf + Concat(chunks)), Output(Lines(buf + Concat(chunks)), field, platform))
    decreases |chunks|
  {
    hide Lines, Trailing, Output, OneLine;
    if chunks == [] {
      assert buf + Concat(chunks) == buf;
      NoLine(buf);
      NoOutput(field, platform);
    } else {
      var s := buf + chunks[0];
      var t := Concat(chunks[1..]);
      LinesSplit(s);
      ChunksDoNotMatter(Trailing(s), chunks[1..], field, platform);
      LinesOfConcat(s, t);
      OutputConcat(Lines(s), Lines(Trailing(s) + t), field, platform);
      assert buf + Concat(chunks) == s + t;
    }
  }

  lemma OutputCons(line: string, lines: seq<string>, field: string, platform: string)
    ensures Output([line] + lines, field, platform) == Rewritten(line, field, platform) + Output(lines, field, platform)
  {
    assert ([line] + lines)[1..] == lines;
  }

  lemma NoOutput(field: string, platform: string)
    ensures Output([], field, platform) == ""
  {
  }
}
