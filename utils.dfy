// Model of src/utils.c: splitting a command line on one separator character.

module Utils {

  datatype Option<T> = None | Some(value: T)

  /** Number of occurrences of `c` in `s`. */
  function Occurrences(s: seq<char>, c: char): nat
  {
    if |s| == 0 then 0
    else Occurrences(s[..|s| - 1], c) + (if s[|s| - 1] == c then 1 else 0)
  }

  /** Reference definition of the tokens of `s`: the maximal runs between separators,
      including the empty runs before a leading, after a trailing, and between two
      consecutive separators. Built from the back, one character at a time. */
  function Split(s: seq<char>, sep: char): (parts: seq<string>)
    ensures |parts| >= 1
  {
    if |s| == 0 then [""] else Extend(Split(s[..|s| - 1], sep), s[|s| - 1], sep)
  }

  /** One more character: a separator opens a new empty token, anything else extends
      the last one. */
  function Extend(parts: seq<string>, c: char, sep: char): (r: seq<string>)
    requires |parts| >= 1
    ensures |r| >= 1
  {
    if c == sep then parts + [""] else parts[..|parts| - 1] + [parts[|parts| - 1] + [c]]
  }

  /** The tokens glued back together with the separator between each two. */
  function Join(parts: seq<string>, sep: char): string
    requires |parts| >= 1
  {
    if |parts| == 1 then parts[0]
    else Join(parts[..|parts| - 1], sep) + [sep] + parts[|parts| - 1]
  }

  predicate NoSeparator(parts: seq<string>, sep: char)
  {
    forall i :: 0 <= i < |parts| ==> sep !in parts[i]
  }

  lemma {:induction false} SplitCount(s: seq<char>, sep: char)
    ensures |Split(s, sep)| == 1 + Occurrences(s, sep)
  {
    if |s| > 0 {
      SplitCount(s[..|s| - 1], sep);
    }
  }

  lemma {:induction false} SplitHasNoSeparator(s: seq<char>, sep: char)
    ensures NoSeparator(Split(s, sep), sep)
  {
    if |s| > 0 {
      SplitHasNoSeparator(s[..|s| - 1], sep);
    }
  }

  /** Joining the tokens with the separator gives back the line exactly. */
  lemma {:induction false} JoinSplit(s: seq<char>, sep: char)
    ensures Join(Split(s, sep), sep) == s
  {
    if |s| > 0 {
      var init, c := s[..|s| - 1], s[|s| - 1];
      JoinSplit(init, sep);
      var p := Split(init, sep);
      if c == sep {
        JoinNewToken(p, sep);
      } else {
        JoinLongerToken(p, c, sep);
      }
      assert s == init + [c];
    }
  }

  lemma JoinNewToken(p: seq<string>, sep: char)
    requires |p| >= 1
    ensures Join(p + [""], sep) == Join(p, sep) + [sep]
  {
    assert (p + [""])[..|p|] == p;
  }

  lemma JoinLongerToken(p: seq<string>, c: char, sep: char)
    requires |p| >= 1
    ensures Join(p[..|p| - 1] + [p[|p| - 1] + [c]], sep) == Join(p, sep) + [c]
  {
    var q := p[..|p| - 1] + [p[|p| - 1] + [c]];
    assert q[..|q| - 1] == p[..|p| - 1];
    if |p| > 1 {
      assert Join(q, sep) == Join(p[..|p| - 1], sep) + [sep] + (p[|p| - 1] + [c]);
    }
  }

  /** The other direction of the round trip: tokens free of the separator are
      recovered exactly by splitting their join. */
  lemma {:induction false} SplitJoin(parts: seq<string>, sep: char)
    requires |parts| >= 1 && NoSeparator(parts, sep)
    ensures Split(Join(parts, sep), sep) == parts
  {
    if |parts| == 1 {
      SplitNoSeparator(parts[0], sep);
    } else {
      var init := parts[..|parts| - 1];
      var last := parts[|parts| - 1];
      assert NoSeparator(init, sep) by {
        forall i | 0 <= i < |init| ensures sep !in init[i] { assert init[i] == parts[i]; }
      }
      SplitJoin(init, sep);
      SplitJoinStep(init, last, sep);
      Snoc(parts);
    }
  }

  /** A non-empty sequence is its front followed by its last element. */
  lemma Snoc<T>(s: seq<T>)
    requires |s| > 0
    ensures s == s[..|s| - 1] + [s[|s| - 1]]
  {
  }

  /** A slice of a slice is a slice of the whole. */
  lemma Subslice<T>(s: seq<T>, a: nat, b: nat, c: nat)
    requires a + c <= b <= |s|
    ensures s[a..b][c..] == s[a + c..b] && s[a..b][..c] == s[a..a + c]
  {
  }

  /** Cutting `a + b` inside `b` keeps all of `a`. */
  lemma AppendTake<T>(a: seq<T>, b: seq<T>, k: nat)
    requires k <= |b|
    ensures (a + b)[..|a| + k] == a + b[..k]
  {
  }

  lemma SnocSlice<T>(a: seq<T>, l: seq<T>, j: nat)
    requires j < |l|
    ensures a + l[..j + 1] == (a + l[..j]) + [l[j]]
  {
    assert l[..j + 1] == l[..j] + [l[j]];
  }

  lemma AppendAssoc<T>(a: seq<T>, b: seq<T>, c: seq<T>)
    ensures (a + b) + c == a + (b + c)
  {
  }

  lemma SplitJoinStep(init: seq<string>, last: string, sep: char)
    requires |init| >= 1 && sep !in last && Split(Join(init, sep), sep) == init
    ensures Split(Join(init + [last], sep), sep) == init + [last]
  {
    assert (init + [last])[..|init|] == init;
    SplitAppend(Join(init, sep), last, sep);
  }

  lemma {:induction false} SplitNoSeparator(t: string, sep: char)
    requires sep !in t
    ensures Split(t, sep) == [t]
  {
    if |t| > 0 {
      SplitNoSeparator(t[..|t| - 1], sep);
      assert t[..|t| - 1] + [t[|t| - 1]] == t;
    }
  }

  /** Splitting `a + sep + t`, with `t` free of the separator, adds `t` as the last token. */
  lemma {:induction false} SplitAppend(a: string, t: string, sep: char)
    requires sep !in t
    ensures Split(a + [sep] + t, sep) == Split(a, sep) + [t]
  {
    if |t| == 0 {
      assert a + [sep] + t == a + [sep];
      assert (a + [sep])[..|a|] == a;
    } else {
      var t' := t[..|t| - 1];
      SplitAppend(a, t', sep);
      var s := a + [sep] + t;
      assert s[..|s| - 1] == a + [sep] + t';
      assert t' + [t[|t| - 1]] == t;
    }
  }

  /** string_split, on a C string (no NUL inside). A NULL line gives count 0 and no token array; otherwise the first loop
      counts the separators and the second one cuts the copy at each of them. */
  method StringSplit(str: Option<string>, sep: char) returns (count: nat, data: Option<array<string>>)
    requires str.Some? ==> '\0' !in str.value
    ensures str.None? ==> count == 0 && data.None?
    ensures str.Some? ==> data.Some? && data.value.Length == count
                          && count == 1 + Occurrences(str.value, sep)
                          && data.value[..] == Split(str.value, sep)
  {
    if str.None? {
      return 0, None;
    }
    var s := str.value;
    count := CountTokens(s, sep);
    var arr := new string[count];
    FillTokens(s, sep, arr);
    data := Some(arr);
  }

  /** The second loop of string_split: each separator closes a token, the rest of the
      line is the last one. */
  method FillTokens(s: string, sep: char, arr: array<string>)
    requires arr.Length == 1 + Occurrences(s, sep)
    modifies arr
    ensures arr[..] == Split(s, sep)
  {
    var i, j, k := 0, 0, 0;
    while i < |s|
      invariant 0 <= k <= i <= |s|
      invariant j < arr.Length
      invariant arr[..j] + [s[k..i]] == Split(s[..i], sep)
    {
      SplitStep(s, sep, i, k, arr[..j]);
      if s[i] == sep {
        TokenBound(s, sep, i);
        ghost var before := arr[..];
        arr[j] := s[k..i];
        assert arr[..] == before[j := s[k..i]];
        UpdatePrefix(before, j, s[k..i]);
        j := j + 1;
        k := i + 1;
      }
      i := i + 1;
    }
    assert s[..|s|] == s;
    SplitCount(s, sep);
    arr[j] := s[k..];
    assert arr[..] == arr[..j] + [s[k..]];
  }

  /** The first loop of string_split: one token more than there are separators. */
  method CountTokens(s: string, sep: char) returns (count: nat)
    ensures count == 1 + Occurrences(s, sep)
  {
    count := 1;
    var n := 0;
    while n < |s|
      invariant 0 <= n <= |s|
      invariant count == 1 + Occurrences(s[..n], sep)
    {
      assert s[..n + 1][..n] == s[..n];
      if s[n] == sep {
        count := count + 1;
      }
      n := n + 1;
    }
    assert s[..|s|] == s;
  }

  /** One step of the fill loop: the character at `i` either closes the current token
      or extends it. */
  lemma SplitStep(s: seq<char>, sep: char, i: nat, k: nat, toks: seq<string>)
    requires k <= i < |s| && toks + [s[k..i]] == Split(s[..i], sep)
    ensures s[i] == sep ==> toks + [s[k..i]] + [s[i + 1..i + 1]] == Split(s[..i + 1], sep)
    ensures s[i] != sep ==> toks + [s[k..i + 1]] == Split(s[..i + 1], sep)
  {
    assert s[..i + 1][..i] == s[..i];
    assert s[i + 1..i + 1] == "";
    assert s[k..i + 1] == s[k..i] + [s[i]];
  }

  lemma UpdatePrefix(a: seq<string>, j: nat, t: string)
    requires j < |a|
    ensures a[j := t][..j + 1] == a[..j] + [t]
  {
  }

  /** A separator at `i` is not the last one the first loop counted. */
  lemma TokenBound(s: seq<char>, sep: char, i: nat)
    requires i < |s| && s[i] == sep
    ensures |Split(s[..i], sep)| < 1 + Occurrences(s, sep)
  {
    SplitCount(s[..i], sep);
    assert s[..i + 1][..i] == s[..i];
    OccurrencesConcat(s[..i + 1], s[i + 1..], sep);
    assert s[..i + 1] + s[i + 1..] == s;
  }

  lemma {:induction false} OccurrencesConcat(a: seq<char>, b: seq<char>, c: char)
    ensures Occurrences(a + b, c) == Occurrences(a, c) + Occurrences(b, c)
  {
    if |b| > 0 {
      OccurrencesConcat(a, b[..|b| - 1], c);
      assert (a + b)[..|a + b| - 1] == a + b[..|b| - 1];
    } else {
      assert a + b == a;
    }
  }
}
