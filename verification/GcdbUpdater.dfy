/** The buffer of the game controller database updater (device/gcdb-updater/gamecontrollerdb_updater.c):
    body_cb and write_mapping_lines with the C string functions they call. */
module GcdbUpdater {
  import opened CMemory
  import opened GcdbLines

  /** memchr for a newline: its index, or `end`. */
  method MemChrNewline(a: array<char>, from: nat, end: nat) returns (k: nat)
    requires from <= end <= a.Length
    ensures k == from + Newline(a[from..end])
  {
    k := from;
    while k < end && a[k] != '\n'
      invariant from <= k <= end
      invariant forall i :: from <= i < k ==> a[i] != '\n'
    {
      k := k + 1;
    }
    FirstNewline(a[from..end], k - from);
  }

  /** strstr: the index of the first occurrence of p in the C string at `from`, or -1. */
  method StrStr(a: array<char>, from: nat, p: string, ghost end: nat) returns (k: int)
    requires from <= end < a.Length && a[end] == '\0' && '\0' !in p && p != []
    requires forall i :: from <= i < end ==> a[i] != '\0'
    ensures k == -1 || k >= from
    ensures Find(a[from..end], p) == if k == -1 then -1 else k - from
  {
    ghost var s := a[from..end];
    var i := from;
    while a[i] != '\0'
      invariant from <= i <= end
      invariant forall j :: 0 <= j < i - from ==> !Occurs(s, p, j)
      decreases end - i
    {
      assert i < end;
      var yes := StartsWithin(a, i, p, end);
      assert yes <==> Occurs(s, p, i - from);
      if yes {
        return i;
      }
      i := i + 1;
    }
    assert i == end;
    return -1;
  }

  /** The comparison inside strstr: does p occur at index i of a C string that ends at `end`? */
  method StartsWithin(a: array<char>, i: nat, p: string, ghost end: nat) returns (yes: bool)
    requires i <= end < a.Length && a[end] == '\0' && '\0' !in p
    ensures yes <==> i + |p| <= end && a[i..i + |p|] == p
  {
    var j := 0;
    while j < |p| && a[i + j] == p[j]
      invariant 0 <= j <= |p| && i + j <= end
      invariant forall n :: 0 <= n < j ==> a[i + n] == p[n]
    {
      assert p[j] != '\0';
      j := j + 1;
    }
    yes := j == |p|;
    if yes {
      assert a[i..i + |p|] == p;
    } else if i + |p| <= end {
      assert a[i..i + |p|][j] != p[j];
    }
  }

  /** The C string at `from`, as printf sees it. */
  method StringAt(a: array<char>, from: nat, ghost end: nat) returns (r: string)
    requires from <= end < a.Length && a[end] == '\0'
    ensures r == CString(a[from..end])
  {
    r := "";
    var i := from;
    while a[i] != '\0'
      invariant from <= i <= end && r == a[from..i]
      invariant forall j :: from <= j < i ==> a[j] != '\0'
      decreases end - i
    {
      r := r + [a[i]];
      i := i + 1;
    }
    CStringUpTo(a[from..end], i - from);
  }

  lemma {:induction false} CStringUpTo(s: string, k: nat)
    requires k <= |s| && (forall i :: 0 <= i < k ==> s[i] != '\0') && (k < |s| ==> s[k] == '\0')
    ensures CString(s) == s[..k]
  {
    if k > 0 {
      assert s[1..][..k - 1] == s[..k][1..];
      CStringUpTo(s[1..], k - 1);
    }
  }

  /** The C string of a line, in the buffer. */
  lemma StringIn(b: string, cur: nat, next: nat)
    requires cur <= next < |b|
    ensures
      var s := CString(b[cur..next]);
      var end := cur + |s|;
      && end <= next && b[cur..end] == s
      && (forall i :: cur <= i < end ==> b[i] != '\0')
      && (end < next ==> b[end] == '\0')
  {
    var s := CString(b[cur..next]);
    assert s == b[cur..next][..|s|] == b[cur..cur + |s|];
    assert forall i :: cur <= i < cur + |s| ==> b[i] == s[i - cur];
  }

  /** A line c made from b by taking out n characters at `plat`: as a C string it ends where b, shortened, does. */
  lemma CutOut(b: string, c: string, cur: nat, plat: nat, n: nat, end: nat, next: nat)
    requires cur <= plat && plat + n <= end <= next < |b| == |c| && n > 0
    requires forall i :: cur <= i < end ==> b[i] != '\0'
    requires forall i :: cur <= i < plat ==> c[i] == b[i]
    requires forall i :: plat <= i < end - n ==> c[i] == b[i + n]
    requires c[end - n] == '\0'
    ensures CString(c[cur..next]) == b[cur..plat] + b[plat + n..end]
  {
    var k := end - cur - n;
    CStringUpTo(c[cur..next], k);
    assert c[cur..next][..k] == b[cur..plat] + b[plat + n..end];
  }

  class TaskContext {
    var buf: array<char>
    var size: nat
    var fp: bool          // whether the file is open
    var status: int
    var out: string       // what has been written to the file
    const platform: string
    const platformMatch: string
    const platformMatchLen: nat

    ghost predicate Valid()
      reads this
    {
      && size < buf.Length
      && platformMatch != [] && '\0' !in platformMatch && platformMatchLen == |platformMatch|
    }

    /** What has been received and not been consumed. */
    ghost function Pending(): string
      requires Valid()
      reads this, buf
    {
      buf[..size]
    }

    /** The fields set by commons_gcdb_updater_init, and update_thread_start. */
    constructor (platform: string, platformUse: string, usesOther: bool)
      requires '\0' !in platform && '\0' !in platformUse
      ensures Valid() && Pending() == "" && !fp && status == 0 && out == ""
      ensures this.platform == platform && platformMatch == "platform:" + (if usesOther then platformUse else platform) + ","
    {
      var p := if usesOther then platformUse else platform;
      this.platform := platform;
      platformMatchLen := |p| + 10;
      platformMatch := "platform:" + p + ",";
      buf := new char[1];
      size := 0;
      fp, status, out := false, 0, "";
    }

    /** The body of the loop for one line, which is buf[cur..next]. */
    method WriteLine(cur: nat, next: nat)
      requires Valid() && cur <= next < size
      modifies buf, `out
      ensures Valid() && out == old(out) + Rewritten(old(buf[cur..next]), platformMatch, platform)
      ensures forall i :: next < i < buf.Length ==> buf[i] == old(buf[i])
    {
      hide CString, Find;
      ghost var line := buf[cur..next];
      buf[next] := '\0';
      ghost var all := buf[..];
      assert all[cur..next] == line;
      StringIn(all, cur, next);
      ghost var s := CString(line);
      ghost var end := cur + |s|;
      assert buf[cur..end] == all[cur..end];
      var plat := StrStr(buf, cur, platformMatch, end);
      if plat != -1 {
        RemoveField(cur, plat, next, end);
        CutOut(all, buf[..], cur, plat, platformMatchLen, end, next);
        assert buf[..][cur..next] == buf[cur..next];
        var text := StringAt(buf, cur, next);
        PartsOf(all, cur, end, plat, platformMatchLen);
        out := out + text + "platform:" + platform + ",\n";
        WrittenIs(old(out), line, text, platformMatch, platform);
      }
    }

    /** The printf of a line whose field has been taken out. */
    static lemma WrittenIs(out: string, line: string, text: string, field: string, platform: string)
      requires var s := CString(line); var k := Find(s, field); k >= 0 && text == s[..k] + s[k + |field|..]
      ensures out + text + "platform:" + platform + ",\n" == out + Rewritten(line, field, platform)
    {
      hide CString, Find;
      var p := "platform:" + platform;
      Regroup(p, ",", "\n");
      Regroup(text, Field(platform), "\n");
      Regroup(out + text, "platform:", platform);
      Regroup(out + text, p, ",\n");
      Regroup(out, text, p + ",\n");
    }

    static lemma Regroup(a: string, b: string, c: string)
      ensures a + b + c == a + (b + c)
    {
    }

    static lemma PartsOf(b: string, cur: nat, end: nat, plat: nat, n: nat)
      requires cur <= plat && plat + n <= end <= |b|
      ensures b[cur..end][..plat - cur] == b[cur..plat] && b[cur..end][plat - cur + n..] == b[plat + n..end]
    {
    }

    /** Take the field at plat out of the line. */
    method RemoveField(cur: nat, plat: nat, next: nat, ghost end: nat)
      requires Valid() && cur <= plat && plat + platformMatchLen <= end <= next < buf.Length
      requires buf[next] == '\0' && buf[end] == '\0'
      modifies buf
      ensures buf[next] == '\0' && buf[end - platformMatchLen] == '\0'
      ensures forall i :: plat <= i < end - platformMatchLen ==> buf[i] == old(buf[i + platformMatchLen])
      ensures forall i :: 0 <= i < plat || next < i < buf.Length ==> buf[i] == old(buf[i])
    {
      var platEnd := plat + platformMatchLen;
      if platEnd < next {
        MemMove(buf, plat, platEnd, next - platEnd);
        buf[plat + (next - platEnd)] := '\0';
      } else {
        buf[plat] := '\0';
      }
    }

    /** The part of write_mapping_lines behind its loop: what is left of the buffer moves to the front. */
    method KeepRest(cur: nat)
      requires Valid() && cur <= size
      modifies `size, buf
      ensures Valid() && Pending() == old(buf[cur..size])
    {
      var rem := size - cur;
      size := rem;
      MemMove(buf, 0, cur, rem);
    }

    /** write_mapping_lines */
    method WriteMappingLines()
      requires Valid()
      modifies this, buf
      ensures Valid() && buf == old(buf) && fp == old(fp) && status == old(status)
      ensures !fp ==> Pending() == old(Pending()) && out == old(out)
      ensures fp ==>
        && Pending() == Trailing(old(Pending()))
        && out == old(out) + Output(Lines(old(Pending())), platformMatch, platform)
    {
      hide Lines, Trailing, Output, Rewritten, Newline, CString, Find;
      if !fp {
        return;
      }
      ghost var all := buf[..size];
      ghost var rest := all;
      var cur := 0;
      while true
        invariant Valid() && cur <= size == old(size) && buf == old(buf) && fp && status == old(status)
        invariant |rest| == size - cur && forall i :: cur <= i < size ==> buf[i] == rest[i - cur]
        invariant Trailing(rest) == Trailing(all)
        invariant out + Output(Lines(rest), platformMatch, platform)
                  == old(out) + Output(Lines(all), platformMatch, platform)
        decreases size - cur
      {
        assert buf[cur..size] == rest;
        var next := MemChrNewline(buf, cur, size);
        if next == size {
          NoLine(rest);
          NoOutput(platformMatch, platform);
          KeepRest(cur);
          break;
        }
        ghost var line := rest[..next - cur];
        FirstLine(rest, next - cur);
        rest := rest[next - cur + 1..];
        OutputCons(line, Lines(rest), platformMatch, platform);
        assert buf[cur..next] == line;
        WriteLine(cur, next);
        cur := next + 1;
      }
    }

    /** body_cb: how much of the chunk was taken. */
    method BodyCb(chunk: string) returns (taken: nat)
      requires Valid()
      modifies this, buf
      ensures Valid() && (buf == old(buf) || fresh(buf)) && fp == old(fp) && status == old(status)
      ensures status < 0 ==> taken == 0 && Pending() == old(Pending()) && out == old(out)
      ensures status >= 0 ==> taken == |chunk|
      ensures status >= 0 && !fp ==> Pending() == old(Pending()) + chunk && out == old(out)
      ensures status >= 0 && fp ==>
        && Pending() == Trailing(old(Pending()) + chunk)
        && out == old(out) + Output(Lines(old(Pending()) + chunk), platformMatch, platform)
    {
      hide Lines, Trailing, Output;
      if status < 0 {
        return 0;
      }
      Append(chunk);
      WriteMappingLines();
      return |chunk|;
    }

    /** The part of body_cb that puts a chunk behind what is there. */
    method Append(chunk: string)
      requires Valid()
      modifies this, buf
      ensures Valid() && (buf == old(buf) || fresh(buf)) && fp == old(fp) && status == old(status) && out == old(out)
      ensures Pending() == old(Pending()) + chunk
    {
      ghost var had := buf[..size];
      buf := Realloc(buf, size + |chunk| + 1);
      assert buf[..size] == had;
      MemCpy(buf, size, chunk);
      size := size + |chunk|;
      buf[size] := '\0';
      assert buf[..size] == had + chunk;
    }

    /** A whole body, in whatever chunks it arrives: with the file open and nothing pending, the file gets the
        rewritten complete lines of the body, and the part behind its last newline stays pending. */
    method Body(chunks: seq<string>)
      requires Valid() && fp && status >= 0 && Pending() == ""
      modifies this, buf
      ensures Valid() && Pending() == Trailing(Concat(chunks))
      ensures out == old(out) + Output(Lines(Concat(chunks)), platformMatch, platform)
    {
      hide Lines, Trailing, Output, Concat;
      ghost var all := Fed("", chunks, platformMatch, platform);
      var i := 0;
      while i < |chunks|
        invariant 0 <= i <= |chunks| && Valid() && fp && status >= 0 && (buf == old(buf) || fresh(buf))
        invariant all.0 == Fed(Pending(), chunks[i..], platformMatch, platform).0
        invariant old(out) + all.1 == out + Fed(Pending(), chunks[i..], platformMatch, platform).1
      {
        assert chunks[i..][0] == chunks[i] && chunks[i..][1..] == chunks[i + 1..];
        var _ := BodyCb(chunks[i]);
        i := i + 1;
      }
      ChunksDoNotMatter("", chunks, platformMatch, platform);
      assert "" + Concat(chunks) == Concat(chunks);
    }
  }
}
