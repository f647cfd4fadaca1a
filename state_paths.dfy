// Model of src/state-paths.c: the per-instance state directory "dir/effect-N", the state
// path "dir/effect-N/path" built byte by byte into an allocated buffer, and the loop that
// creates each missing directory of that path. access and mkdir are oracles; malloc is
// taken to succeed.

module StatePaths {
  import opened Utils

  const NUL: char := '\0'
  const EEXIST: int := 17

  newtype int32 = x: int | -0x8000_0000 <= x < 0x8000_0000

  /** The decimal digits of `n`, most significant first. */
  function Digits(n: nat): (r: string)
    ensures |r| >= 1 && forall i :: 0 <= i < |r| ==> '0' <= r[i] <= '9'
  {
    if n < 10 then [DigitChar(n)] else Digits(n / 10) + [DigitChar(n % 10)]
  }

  function DigitChar(d: nat): (c: char)
    requires d < 10
    ensures '0' <= c <= '9'
  {
    ('0' as int + d) as char
  }

  /** printf's "%d". */
  function Decimal(n: int): string
  {
    if n < 0 then "-" + Digits(-n) else Digits(n)
  }

  /** The value of a string of decimal digits. */
  function DigitsValue(s: string): int
  {
    if |s| == 0 then 0 else DigitsValue(s[..|s| - 1]) * 10 + (s[|s| - 1] as int - '0' as int)
  }

  function ParseDecimal(s: string): int
  {
    if |s| > 0 && s[0] == '-' then -DigitsValue(s[1..]) else DigitsValue(s)
  }

  lemma {:induction false} DigitsRoundTrip(n: nat)
    ensures DigitsValue(Digits(n)) == n
  {
    if n >= 10 {
      DigitsRoundTrip(n / 10);
      var s := Digits(n);
      assert s[..|s| - 1] == Digits(n / 10);
    }
  }

  /** The id in "effect-N" reads back as the instance number. */
  lemma DecimalRoundTrip(n: int)
    ensures ParseDecimal(Decimal(n)) == n
  {
    if n < 0 {
      DigitsRoundTrip(-n);
      assert ("-" + Digits(-n))[1..] == Digits(-n);
    } else {
      DigitsRoundTrip(n);
    }
  }

  /** The "effect-%d" label. Its at most 18 characters fit the 23 snprintf allows. */
  function EffectLabel(instance: int32): (r: string)
    ensures |r| <= 22
  {
    DecimalLength(instance as int);
    "effect-" + Decimal(instance as int)
  }

  lemma DecimalLength(n: int)
    requires -0x8000_0000 <= n < 0x8000_0000
    ensures |Decimal(n)| <= 11
  {
    var m: nat := if n < 0 then -n else n;
    assert Power10(10) == 10_000_000_000;
    DigitsLength(m, 10);
  }

  lemma {:induction false} DigitsLength(n: nat, k: nat)
    requires k >= 1 && n < Power10(k)
    ensures |Digits(n)| <= k
  {
    if n >= 10 {
      assert n / 10 < Power10(k - 1);
      DigitsLength(n / 10, k - 1);
    }
  }

  function Power10(k: nat): nat
  {
    if k == 0 then 1 else 10 * Power10(k - 1)
  }

  /** GetPluginStateDir's string. */
  function EffectDir(instance: int32, dir: string): string
  {
    dir + "/" + EffectLabel(instance)
  }

  /** MakePluginStatePath's string: "." names the instance directory itself, and every
      other path is appended verbatim. */
  function StatePath(instance: int32, dir: string, path: string): string
  {
    if path == "." then EffectDir(instance, dir) else EffectDir(instance, dir) + "/" + path
  }

  /** A path built from NUL-free parts is a C string of its own length. */
  lemma StatePathNulFree(instance: int32, dir: string, path: string)
    requires NUL !in dir && NUL !in path
    ensures NUL !in StatePath(instance, dir, path)
  {
    var tag := EffectLabel(instance);
    assert NUL !in tag by {
      var digits := Decimal(instance as int);
      assert tag == "effect-" + digits;
      assert forall i :: 0 <= i < |digits| ==> digits[i] != NUL;
    }
    assert NUL !in EffectDir(instance, dir);
  }

  /** memcpy of `src` to `buf` at `at`: the bytes before `at` are kept and `src` follows
      them. */
  method CopyInto(buf: array<char>, at: nat, src: string)
    requires at + |src| <= buf.Length
    modifies buf
    ensures buf[..at + |src|] == old(buf[..at]) + src
  {
    var i := 0;
    while i < |src|
      invariant 0 <= i <= |src|
      invariant buf[..at + i] == old(buf[..at]) + src[..i]
    {
      buf[at + i] := src[i];
      assert buf[..at + i + 1] == buf[..at + i] + [src[i]];
      i := i + 1;
      assert src[..i] == src[..i - 1] + [src[i - 1]];
    }
    assert src[..i] == src;
  }

  /** dir, '/' and the label, written from the start of `buf`. */
  method WriteEffectDir(buf: array<char>, d: string, effid: string)
    requires |d| + 1 + |effid| <= buf.Length
    modifies buf
    ensures buf[..|d| + 1 + |effid|] == d + "/" + effid
  {
    CopyInto(buf, 0, d);
    CopyInto(buf, |d|, "/");
    CopyInto(buf, |d| + 1, effid);
  }

  /** GetPluginStateDir: None for a NULL dir, else a buffer of strlen(dir) + strlen(label)
      + 2 bytes holding dir, '/', the label and the terminating NUL. */
  method GetPluginStateDir(instance: int32, dir: Option<string>) returns (r: Option<array<char>>)
    requires dir.Some? ==> NUL !in dir.value
    ensures dir.None? ==> r.None?
    ensures dir.Some? ==>
              r.Some? && fresh(r.value) &&
              r.value[..] == EffectDir(instance, dir.value) + [NUL] &&
              r.value.Length == |dir.value| + |EffectLabel(instance)| + 2
  {
    if dir.None? {
      return None;
    }
    var effid := EffectLabel(instance);
    var d := dir.value;
    var buf := new char[|d| + |effid| + 2];
    WriteEffectDir(buf, d, effid);
    CopyInto(buf, |d| + 1 + |effid|, [NUL]);
    assert buf[..] == buf[..buf.Length];
    return Some(buf);
  }

  /** The position of the last '/' in `s`, as strrchr finds it. */
  function LastSlash(s: string): (r: Option<nat>)
    ensures r.Some? ==> r.value < |s|
  {
    if |s| == 0 then None
    else if s[|s| - 1] == '/' then Some(|s| - 1)
    else LastSlash(s[..|s| - 1])
  }

  /** What strrchr promises: the position holds a '/' and none follows it, and there is
      no '/' at all when nothing is found. */
  lemma {:induction false} LastSlashIsLast(s: string)
    ensures LastSlash(s).Some? ==>
              s[LastSlash(s).value] == '/' && forall k :: LastSlash(s).value < k < |s| ==> s[k] != '/'
    ensures LastSlash(s).None? ==> '/' !in s
  {
    if |s| > 0 && s[|s| - 1] != '/' {
      LastSlashIsLast(s[..|s| - 1]);
      assert s == s[..|s| - 1] + [s[|s| - 1]];
    }
  }

  /** The directory the loop creates: the state path itself for ".", otherwise the state
      path cut at its last '/'. */
  function DirToCreate(newpath: string, path: string): string
  {
    if path == "." then newpath
    else match LastSlash(newpath)
      case None => newpath
      case Some(k) => newpath[..k]
  }

  lemma {:induction false} LastSlashAppend(a: string, b: string)
    ensures LastSlash(a + b) == match LastSlash(b)
                                case Some(k) => Some(|a| + k)
                                case None => LastSlash(a)
  {
    if |b| > 0 {
      AppendTake(a, b, |b| - 1);
      LastSlashAppend(a, b[..|b| - 1]);
    } else {
      assert a + b == a;
    }
  }

  /** The directory created for a state path is the instance directory for "." and for a
      plain file name, and the instance directory plus the path's own directories
      otherwise. */
  lemma StateDirectory(instance: int32, dir: string, path: string)
    ensures DirToCreate(StatePath(instance, dir, path), path) ==
            if path == "." then EffectDir(instance, dir)
            else match LastSlash(path)
              case None => EffectDir(instance, dir)
              case Some(k) => EffectDir(instance, dir) + "/" + path[..k]
  {
    DirUnder(EffectDir(instance, dir), path);
  }

  /** The same for any instance directory `e`. */
  lemma DirUnder(e: string, path: string)
    ensures DirToCreate(if path == "." then e else e + "/" + path, path) ==
            if path == "." then e
            else match LastSlash(path)
              case None => e
              case Some(k) => e + "/" + path[..k]
  {
    if path != "." {
      LastSlashAppend(e + "/", path);
      match LastSlash(path)
      case None => DirUnderFile(e, path);
      case Some(k) => DirUnderNested(e, path, k);
    }
  }

  /** A path without '/' lives in the instance directory itself. */
  lemma DirUnderFile(e: string, path: string)
    requires LastSlash(e + "/" + path) == LastSlash(e + "/")
    ensures LastSlash(e + "/" + path) == Some(|e|) && (e + "/" + path)[..|e|] == e
  {
    LastSlashAppend(e, "/");
    AppendTake(e, "/" + path, 0);
    assert e + "/" + path == e + ("/" + path);
  }

  /** A path whose last '/' is at `k` lives in the instance directory plus path[..k]. */
  lemma DirUnderNested(e: string, path: string, k: nat)
    requires k < |path| && LastSlash(e + "/" + path) == Some(|e + "/"| + k)
    ensures (e + "/" + path)[..|e| + 1 + k] == e + "/" + path[..k]
  {
    AppendTake(e + "/", path, k);
  }

  /** The prefixes mkdir is called with, in increasing length: every d[..i] with
      from <= i <= |d| where d[i] is a '/' or i is the end. */
  function Targets(d: string, from: nat): seq<string>
    requires from <= |d| + 1
    decreases |d| + 1 - from
  {
    if from > |d| then []
    else if from == |d| || d[from] == '/' then [d[..from]] + Targets(d, from + 1)
    else Targets(d, from + 1)
  }

  /** Each of `r` is a prefix of `d` of length at least `from`, cut just before a '/' or
      at the end, and they grow strictly in length. */
  ghost predicate Shaped(d: string, from: nat, r: seq<string>)
  {
    (forall j :: 0 <= j < |r| ==> from <= |r[j]| <= |d| && r[j] == d[..|r[j]|]) &&
    (forall j :: 0 <= j < |r| ==> |r[j]| == |d| || d[|r[j]|] == '/') &&
    (forall j, k :: 0 <= j < k < |r| ==> |r[j]| < |r[k]|)
  }

  lemma {:induction false} TargetsShape(d: string, from: nat)
    requires from <= |d| + 1
    ensures Shaped(d, from, Targets(d, from))
    decreases |d| + 1 - from
  {
    if from <= |d| {
      TargetsShape(d, from + 1);
      var rest := Targets(d, from + 1);
      if from == |d| || d[from] == '/' {
        var r := [d[..from]] + rest;
        forall j | 1 <= j < |r| ensures r[j] == rest[j - 1] && |r[0]| < |r[j]| {
        }
      }
    }
  }

  /** Every prefix ending before a '/' at position 1 or later, and the whole string, is a
      target, and each once. */
  lemma {:induction false} TargetsComplete(d: string, from: nat, i: nat)
    requires from <= i <= |d| && (i == |d| || d[i] == '/')
    ensures d[..i] in Targets(d, from)
    decreases i - from
  {
    if from < i {
      TargetsComplete(d, from + 1, i);
    }
  }

  /** The last directory created is the whole of `d`. */
  lemma {:induction false} TargetsEndWithWhole(d: string, from: nat)
    requires from <= |d|
    ensures |Targets(d, from)| > 0 && Targets(d, from)[|Targets(d, from)| - 1] == d
    decreases |d| - from
  {
    if from < |d| {
      TargetsEndWithWhole(d, from + 1);
    } else {
      assert d[..from] == d;
    }
  }

  /** mkdir failed with something other than EEXIST. */
  predicate MkdirFails(ret: int)
  {
    ret != 0 && ret != EEXIST
  }

  /** The mkdir loop of MakePluginStatePath over `dup`, a copy of the string to create
      followed by its NUL. For each i in 1..len where dup[i] is '/' or NUL, the byte is
      overwritten with NUL, the prefix is created, and the byte is set to '/'. The loop
      stops at the first failing mkdir. */
  method CreateDirs(dup: array<char>, len: nat, mkdir: string -> int) returns (ok: bool, attempts: seq<string>)
    requires len < dup.Length && dup[len] == NUL && NUL !in dup[..len]
    modifies dup
    ensures ok ==> attempts == Targets(old(dup[..len]), 1) && (forall j :: 0 <= j < |attempts| ==> !MkdirFails(mkdir(attempts[j])))
    ensures !ok ==>
              |attempts| > 0 && attempts <= Targets(old(dup[..len]), 1) &&
              (forall j :: 0 <= j < |attempts| - 1 ==> !MkdirFails(mkdir(attempts[j]))) &&
              MkdirFails(mkdir(attempts[|attempts| - 1]))
    ensures ok ==> dup[..len] == old(dup[..len]) && (len >= 1 ==> dup[len] == '/')
  {
    ghost var d := dup[..len];
    attempts := [];
    var i := 1;
    while i <= len
      invariant 1 <= i <= len + 1
      invariant forall k :: 0 <= k < len ==> dup[k] == d[k]
      invariant i <= len ==> dup[len] == NUL
      invariant i == len + 1 && len >= 1 ==> dup[len] == '/'
      invariant attempts + Targets(d, i) == Targets(d, 1)
      invariant forall j :: 0 <= j < |attempts| ==> !MkdirFails(mkdir(attempts[j]))
    {
      TargetsStep(d, i);
      assert (dup[i] == '/' || dup[i] == NUL) <==> (i == len || d[i] == '/');
      if dup[i] == '/' || dup[i] == NUL {
        var ret, prefix := MkdirAt(dup, i, d, mkdir);
        AppendAssoc(attempts, [prefix], Targets(d, i + 1));
        attempts := attempts + [prefix];
        if MkdirFails(ret) {
          TargetsPrefix(attempts, Targets(d, i + 1), Targets(d, 1));
          return false, attempts;
        }
        dup[i] := '/';
      }
      i := i + 1;
    }
    assert dup[..len] == d;
    ok := true;
  }

  /** One step of the mkdir loop: the byte at `i` becomes NUL and the prefix before it,
      which is `d`'s, is created. */
  method MkdirAt(dup: array<char>, i: nat, ghost d: string, mkdir: string -> int) returns (ret: int, prefix: string)
    requires 1 <= i <= |d| < dup.Length && forall k :: 0 <= k < |d| ==> dup[k] == d[k]
    modifies dup
    ensures prefix == d[..i] && ret == mkdir(prefix)
    ensures dup[i] == NUL && forall k :: 0 <= k < dup.Length && k != i ==> dup[k] == old(dup[k])
  {
    dup[i] := NUL;
    prefix := dup[..i];
    assert prefix == d[..i];
    ret := mkdir(prefix);
  }

  /** Targets, unfolded once. */
  lemma TargetsStep(d: string, i: nat)
    requires 1 <= i <= |d|
    ensures i == |d| || d[i] == '/' ==> Targets(d, i) == [d[..i]] + Targets(d, i + 1)
    ensures i < |d| && d[i] != '/' ==> Targets(d, i) == Targets(d, i + 1)
  {
  }

  lemma TargetsPrefix(a: seq<string>, b: seq<string>, c: seq<string>)
    requires a + b == c
    ensures a == c[..|a|]
  {
    assert c[..|a|] == (a + b)[..|a|];
  }

  /** The buffer MakePluginStatePath fills: strlen(dir) + strlen(label) + strlen(path)
      + 3 bytes holding dir, '/', the label, then '/' and the path unless the path is
      ".", and the terminating NUL. */
  method BuildStatePath(instance: int32, d: string, p: string) returns (buf: array<char>, end: nat)
    ensures fresh(buf) && buf.Length == |d| + |EffectLabel(instance)| + |p| + 3
    ensures end < buf.Length && buf[..end] == StatePath(instance, d, p) && buf[end] == NUL
    ensures end == if p == "." then buf.Length - 3 else buf.Length - 1
  {
    var effid := EffectLabel(instance);
    var emptypath := |p| == 1 && p == ".";
    buf := new char[|d| + |effid| + |p| + 3];
    WriteEffectDir(buf, d, effid);
    end := |d| + 1 + |effid|;
    ghost var written := buf[..end];
    assert written == EffectDir(instance, d);
    if !emptypath {
      AppendPath(buf, end, p);
      end := end + 1 + |p|;
      written := written + "/" + p;
      assert buf[..end] == written;
    }
    assert written == StatePath(instance, d, p);
    Terminate(buf, end);
    assert buf[..end] == written;
  }

  /** '/' and the path written after the first `at` bytes. */
  method AppendPath(buf: array<char>, at: nat, p: string)
    requires at + 1 + |p| <= buf.Length
    modifies buf
    ensures buf[..at + 1 + |p|] == old(buf[..at]) + "/" + p
  {
    CopyInto(buf, at, "/");
    CopyInto(buf, at + 1, p);
  }

  /** The terminating NUL written at `at`, the bytes before it kept. */
  method Terminate(buf: array<char>, at: nat)
    requires at < buf.Length
    modifies buf
    ensures buf[..at] == old(buf[..at]) && buf[at] == NUL
  {
    buf[at] := NUL;
  }

  /** The part of MakePluginStatePath after access fails: strdup of the path, cut at its
      last '/' unless the path is ".", then the mkdir loop. */
  method CreateStateDirs(newpath: string, p: string, mkdir: string -> int) returns (ok: bool, attempts: seq<string>)
    requires NUL !in newpath
    ensures attempts <= Targets(DirToCreate(newpath, p), 1)
    ensures ok <==> forall j :: 0 <= j < |attempts| ==> !MkdirFails(mkdir(attempts[j]))
    ensures ok ==> attempts == Targets(DirToCreate(newpath, p), 1)
  {
    var dup := new char[|newpath| + 1];
    CopyInto(dup, 0, newpath);
    dup[|newpath|] := NUL;
    assert dup[..|newpath|] == newpath;
    var len := |newpath|;
    if !(|p| == 1 && p == ".") {
      var cut := LastSlash(newpath);
      if cut.Some? {
        dup[cut.value] := NUL;
        len := cut.value;
        assert dup[..len] == newpath[..len];
      }
    }
    assert dup[..len] == DirToCreate(newpath, p);
    ok, attempts := CreateDirs(dup, len, mkdir);
  }

  /** MakePluginStatePath. `accessible` stands for access(newpath, F_OK) == 0 and `mkdir`
      for the error mkdir reports (0 on success). Returns the buffer, or None for a NULL
      argument or a failing mkdir, and the prefixes handed to mkdir. */
  method MakePluginStatePath(instance: int32, dir: Option<string>, path: Option<string>,
                             accessible: string -> bool, mkdir: string -> int)
    returns (r: Option<array<char>>, attempts: seq<string>)
    requires dir.Some? ==> NUL !in dir.value
    requires path.Some? ==> NUL !in path.value
    ensures dir.None? || path.None? ==> r.None? && attempts == []
    ensures dir.Some? && path.Some? ==>
      var newpath := StatePath(instance, dir.value, path.value);
      var size := |dir.value| + |EffectLabel(instance)| + |path.value| + 3;
      (accessible(newpath) ==> attempts == []) &&
      (!accessible(newpath) ==> attempts <= Targets(DirToCreate(newpath, path.value), 1)) &&
      (r.Some? <==> accessible(newpath) || forall j :: 0 <= j < |attempts| ==> !MkdirFails(mkdir(attempts[j]))) &&
      (r.Some? && !accessible(newpath) ==> attempts == Targets(DirToCreate(newpath, path.value), 1)) &&
      (r.Some? ==>
         fresh(r.value) && r.value.Length == size &&
         |newpath| == (if path.value == "." then size - 3 else size - 1) &&
         r.value[..|newpath| + 1] == newpath + [NUL])
  {
    if dir.None? || path.None? {
      return None, [];
    }
    var buf, end := BuildStatePath(instance, dir.value, path.value);
    var newpath := buf[..end];
    assert buf[..end + 1] == newpath + [NUL];
    StatePathNulFree(instance, dir.value, path.value);
    attempts := [];
    if !accessible(newpath) {
      var ok;
      ok, attempts := CreateStateDirs(newpath, path.value, mkdir);
      if !ok {
        return None, attempts;
      }
    }
    return Some(buf), attempts;
  }
}
