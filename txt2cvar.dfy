// Model of utils/txt2cvar.py: a text file written out as a C char-array literal, one
// "0x%02X," entry per character and a line break after every 16th. The file is given as
// the lines Python's readlines returns, so reading, decoding and newline translation stay
// outside; what is printed and the exit status are the result.

module Txt2CVar {
  import opened Utils

  /** What the script prints and the status it exits with. */
  datatype Outcome = Outcome(stdout: string, status: int)

  /** os.path.basename on a POSIX path: the part after the last '/'. */
  function Basename(path: string): (r: string)
    ensures |r| <= |path| && r == path[|path| - |r|..] && '/' !in r
    ensures |r| < |path| ==> path[|path| - |r| - 1] == '/'
  {
    if |path| == 0 || path[|path| - 1] == '/' then ""
    else Basename(path[..|path| - 1]) + [path[|path| - 1]]
  }

  /** The variable is named by the second argument if there is one, else after the file. */
  function VarName(argv: seq<string>): string
    requires |argv| >= 2
  {
    if |argv| >= 3 then argv[2] else Basename(argv[1])
  }

  function HexChar(d: nat): (ch: char)
    requires d < 16
    ensures IsHexDigit(ch) && HexDigitValue(ch) == d
  {
    "0123456789ABCDEF"[d]
  }

  predicate IsHexDigit(ch: char)
  {
    '0' <= ch <= '9' || 'A' <= ch <= 'F'
  }

  function HexDigitValue(ch: char): nat
    requires IsHexDigit(ch)
  {
    if ch <= '9' then ch as int - '0' as int else ch as int - 'A' as int + 10
  }

  /** The upper-case hexadecimal digits of `n`, most significant first. */
  function HexDigits(n: nat): (r: string)
    ensures |r| >= 1 && forall i :: 0 <= i < |r| ==> IsHexDigit(r[i])
  {
    if n < 16 then [HexChar(n)] else HexDigits(n / 16) + [HexChar(n % 16)]
  }

  /** "%02X": the hexadecimal digits, padded with a '0' to at least two. */
  function Hex2(n: nat): (r: string)
    ensures forall i :: 0 <= i < |r| ==> IsHexDigit(r[i])
  {
    if n < 16 then "0" + HexDigits(n) else HexDigits(n)
  }

  /** The value of a string of hexadecimal digits. */
  function HexValue(s: string): nat
    requires forall i :: 0 <= i < |s| ==> IsHexDigit(s[i])
  {
    if |s| == 0 then 0 else HexValue(s[..|s| - 1]) * 16 + HexDigitValue(s[|s| - 1])
  }

  /** One emitted byte: the entry for `c`, the `k`-th character of the file counted from
      0, followed by a line break when it is the 16th, 32nd, ... */
  function Item(c: char, k: nat): string
  {
    Entry(c) + LineBreak(k)
  }

  /** '0x%02X,' % ord(c). */
  function Entry(c: char): string
  {
    "0x" + Hex2(c as int) + ","
  }

  function LineBreak(k: nat): string
  {
    if (k + 1) % 16 == 0 then "\n" else ""
  }

  /** The entries for `s`, whose first character is the `k`-th of the file. */
  function Body(s: string, k: nat): string
    decreases |s|
  {
    if |s| == 0 then "" else Item(s[0], k) + Body(s[1..], k + 1)
  }

  function Header(name: string): string
  {
    "const char " + name + "[] = {\n"
  }

  /** The whole literal: header, one entry per character, and a terminating 0x00. */
  function Listing(name: string, text: string): string
  {
    Header(name) + Body(text, 0) + "0x00\n};"
  }

  /** The characters of the file, line after line. */
  function Concat(lines: seq<string>): string
  {
    if |lines| == 0 then "" else Concat(lines[..|lines| - 1]) + lines[|lines| - 1]
  }

  /** The script. `argv` holds the program name and the arguments, and `lines` the lines
      of the file argv[1]. Without a file argument it prints the usage line and exits
      with 1; otherwise it prints the listing and a newline. */
  method Run(argv: seq<string>, lines: seq<string>) returns (out: Outcome)
    requires |argv| >= 1
    ensures |argv| < 2 ==> out == Outcome("Usage: " + argv[0] + " <file_path> [var_name]\n", 1)
    ensures |argv| >= 2 ==> out == Outcome(Listing(VarName(argv), Concat(lines)) + "\n", 0)
  {
    if |argv| < 2 {
      return Outcome("Usage: " + argv[0] + " <file_path> [var_name]\n", 1);
    }
    var varName := Basename(argv[1]);
    if |argv| >= 3 {
      varName := argv[2];
    }
    var output := EmitLines(Header(varName), lines);
    output := output + "0x00\n};";
    return Outcome(output + "\n", 0);
  }

  /** The outer loop over the lines of the file, with the character count `p` carried
      from one line to the next. */
  method EmitLines(header: string, lines: seq<string>) returns (output: string)
    ensures output == header + Body(Concat(lines), 0)
  {
    output := header;
    var p := 0;
    var i := 0;
    while i < |lines|
      invariant 0 <= i <= |lines|
      invariant p == |Concat(lines[..i])| && output == header + Body(Concat(lines[..i]), 0)
    {
      output, p := EmitLine(output, p, lines[i], header, Concat(lines[..i]));
      assert lines[..i + 1][..i] == lines[..i];
      i := i + 1;
    }
    assert lines[..i] == lines;
  }

  /** The inner loop over the characters of one line; `p` counts the characters emitted
      before it, across lines. */
  method EmitLine(output0: string, p0: nat, l: string, ghost header: string, ghost before: string)
    returns (output: string, p: nat)
    requires p0 == |before| && output0 == header + Body(before, 0)
    ensures p == |before + l| && output == header + Body(before + l, 0)
  {
    output, p := output0, p0;
    var j := 0;
    ghost var done := before;
    assert before + l[..0] == before;
    while j < |l|
      invariant 0 <= j <= |l| && done == before + l[..j]
      invariant p == |done| && output == header + Body(done, 0)
    {
      output, p := EmitChar(output, p, l[j], header, done);
      SnocSlice(before, l, j);
      done := done + [l[j]];
      j := j + 1;
    }
    assert l[..j] == l;
  }

  /** One turn of the inner loop: the entry for `c`, then a line break when the count of
      emitted characters reaches a multiple of 16. */
  method EmitChar(output0: string, p0: nat, c: char, ghost header: string, ghost done: string)
    returns (output: string, p: nat)
    requires p0 == |done| && output0 == header + Body(done, 0)
    ensures p == p0 + 1 && output == header + Body(done + [c], 0)
  {
    output := output0 + Entry(c);
    p := p0 + 1;
    if p % 16 == 0 {
      output := output + "\n";
    }
    ItemAfter(output0, c, |done|, output);
    BodyStep(header, done, c, output0, output);
  }

  /** Appending the item of one more character keeps the output equal to the header
      followed by the entries of everything emitted. */
  lemma BodyStep(header: string, done: string, c: char, prev: string, output: string)
    requires prev == header + Body(done, 0) && output == prev + Item(c, |done|)
    ensures output == header + Body(done + [c], 0)
  {
    BodyAppend(done, c, 0);
    AppendAssoc(header, Body(done, 0), Item(c, |done|));
  }

  /** The entry, and the line break when one is due, extend the output by one item. */
  lemma ItemAfter(prev: string, c: char, k: nat, output: string)
    requires output == (if (k + 1) % 16 == 0 then prev + Entry(c) + "\n" else prev + Entry(c))
    ensures output == prev + Item(c, k)
  {
    if (k + 1) % 16 != 0 {
      assert Item(c, k) == Entry(c);
    }
  }

  lemma {:induction false} BodyAppend(s: string, c: char, k: nat)
    ensures Body(s + [c], k) == Body(s, k) + Item(c, k + |s|)
    decreases |s|
  {
    if |s| == 0 {
      assert [c][1..] == [];
    } else {
      assert (s + [c])[0] == s[0];
      assert (s + [c])[1..] == s[1..] + [c];
      BodyAppend(s[1..], c, k + 1);
      assert Body(s + [c], k) == Item(s[0], k) + (Body(s[1..], k + 1) + Item(c, k + |s|));
      AppendAssoc(Item(s[0], k), Body(s[1..], k + 1), Item(c, k + |s|));
    }
  }

  /** The body of a file holds one line break per 16 characters: the entries are counted
      across the whole file, not per line. */
  lemma {:induction false} BodyLineBreaks(s: string, k: nat)
    ensures Occurrences(Body(s, k), '\n') == (k + |s|) / 16 - k / 16
    decreases |s|
  {
    if |s| > 0 {
      BodyLineBreaks(s[1..], k + 1);
      EntryLineBreaks(s[0]);
      OccurrencesConcat(Entry(s[0]), LineBreak(k), '\n');
      OccurrencesConcat(Item(s[0], k), Body(s[1..], k + 1), '\n');
      assert Occurrences(LineBreak(k), '\n') == (k + 1) / 16 - k / 16 by {
        if (k + 1) % 16 == 0 {
          assert Occurrences("\n", '\n') == 1 by {
            assert "\n"[..0] == "";
          }
        }
      }
    }
  }

  lemma EntryLineBreaks(c: char)
    ensures Occurrences(Entry(c), '\n') == 0
  {
    var e := Entry(c);
    assert forall i :: 0 <= i < |e| ==> e[i] != '\n';
    NoOccurrences(e, '\n');
  }

  lemma {:induction false} NoOccurrences(s: string, c: char)
    requires forall i :: 0 <= i < |s| ==> s[i] != c
    ensures Occurrences(s, c) == 0
  {
    if |s| > 0 {
      NoOccurrences(s[..|s| - 1], c);
    }
  }

  // Reading the literal back, as a C compiler sees its elements.

  /** The length of the longest run of hexadecimal digits at the start of `t`. */
  function HexRun(t: string): (n: nat)
    ensures n <= |t| && forall i :: 0 <= i < n ==> IsHexDigit(t[i])
    ensures n < |t| ==> !IsHexDigit(t[n])
  {
    if |t| == 0 || !IsHexDigit(t[0]) then 0 else HexRun(t[1..]) + 1
  }

  /** The elements of a list of "0x" hexadecimal entries, each but the last followed by
      ',' and an optional line break; None if `t` is not such a list. */
  function Elements(t: string): Option<seq<nat>>
    decreases |t|
  {
    if |t| < 2 || t[0] != '0' || t[1] != 'x' then None
    else
      var n := HexRun(t[2..]);
      if n == 0 then None
      else
        var v := HexValue(t[2..2 + n]);
        if 2 + n == |t| then Some([v])
        else if t[2 + n] != ',' then None
        else
          var after := t[3 + n..];
          var next := if |after| > 0 && after[0] == '\n' then after[1..] else after;
          match Elements(next)
          case None => None
          case Some(vs) => Some([v] + vs)
  }

  /** The elements of the array `name` defined by `out`. */
  function ArrayOf(out: string, name: string): Option<seq<nat>>
  {
    var h := Header(name);
    var tail := "\n};";
    if |out| >= |h| + |tail| && out[..|h|] == h && out[|out| - |tail|..] == tail then
      Elements(out[|h|..|out| - |tail|])
    else None
  }

  /** The code points of `s`. */
  function Codes(s: string): (r: seq<nat>)
    ensures |r| == |s| && forall i :: 0 <= i < |s| ==> r[i] == s[i] as int
  {
    if |s| == 0 then [] else [s[0] as int] + Codes(s[1..])
  }

  /** The array printed for a file holds the file's code points in order, then 0. */
  lemma ListingElements(name: string, text: string)
    ensures ArrayOf(Listing(name, text), name) == Some(Codes(text) + [0])
  {
    var out := Listing(name, text);
    var h := Header(name);
    var middle := Body(text, 0) + "0x00";
    assert out == h + middle + "\n};";
    assert out[..|h|] == h;
    assert out[|out| - 3..] == "\n};";
    assert out[|h|..|out| - 3] == middle;
    BodyElements(text, 0);
  }

  lemma {:induction false} BodyElements(s: string, k: nat)
    ensures Elements(Body(s, k) + "0x00") == Some(Codes(s) + [0])
    decreases |s|
  {
    if |s| == 0 {
      ElementsLast();
      assert Body(s, k) + "0x00" == "0x00";
      assert Codes(s) + [0] == [0];
    } else {
      var rest := Body(s[1..], k + 1) + "0x00";
      AppendAssoc(Item(s[0], k), Body(s[1..], k + 1), "0x00");
      BodyStart(s[1..], k + 1);
      assert rest[0] == '0';
      BodyElements(s[1..], k + 1);
      ElementsEntry(s[0], k, rest);
      AppendAssoc([s[0] as int], Codes(s[1..]), [0]);
    }
  }

  /** The terminating entry alone. */
  lemma ElementsLast()
    ensures Elements("0x00") == Some([0])
  {
    var t := "0x00";
    assert t[2..] == "00" && "00"[1..] == "0" && "0"[1..] == "";
    assert HexRun("00") == 2;
    assert t[2..4] == "00" && "00"[..1] == "0" && "0"[..0] == "";
    assert HexValue("00") == 0;
  }

  /** An entry, its ',' and an optional line break, followed by more entries. */
  lemma ElementsEntry(c: char, k: nat, rest: string)
    requires |rest| > 0 && rest[0] == '0' && Elements(rest).Some?
    ensures Elements(Item(c, k) + rest) == Some([c as int] + Elements(rest).value)
  {
    var hex := Hex2(c as int);
    var nl := if (k + 1) % 16 == 0 then "\n" else "";
    var t := "0x" + hex + "," + nl + rest;
    assert Item(c, k) + rest == t;
    EntryShape(hex, nl, rest);
    HexRunStops(hex, "," + nl + rest);
    Hex2Value(c as int);
    ElementsStep(t, hex, nl, rest);
  }

  /** Where the pieces of an entry sit in the text. */
  lemma EntryShape(hex: string, nl: string, rest: string)
    ensures var t := "0x" + hex + "," + nl + rest;
      t[0] == '0' && t[1] == 'x' && t[2..] == hex + ("," + nl + rest) &&
      t[2..2 + |hex|] == hex && t[2 + |hex|] == ',' && t[3 + |hex|..] == nl + rest
  {
  }

  /** Elements unfolded once on an entry. */
  lemma ElementsStep(t: string, hex: string, nl: string, rest: string)
    requires forall i :: 0 <= i < |hex| ==> IsHexDigit(hex[i])
    requires nl == "" || nl == "\n"
    requires |hex| > 0 && |rest| > 0 && rest[0] == '0' && Elements(rest).Some?
    requires |t| == 3 + |hex| + |nl| + |rest|
    requires t[0] == '0' && t[1] == 'x' && HexRun(t[2..]) == |hex| && t[2..2 + |hex|] == hex
    requires t[2 + |hex|] == ',' && t[3 + |hex|..] == nl + rest
    ensures Elements(t) == Some([HexValue(hex)] + Elements(rest).value)
  {
    var after := t[3 + |hex|..];
    if nl == "" {
      assert after == rest;
    } else {
      assert after[0] == '\n' && after[1..] == rest;
    }
  }

  /** A body is empty or starts an entry. */
  lemma BodyStart(s: string, k: nat)
    ensures |s| > 0 ==> |Body(s, k)| > 0 && Body(s, k)[0] == '0'
  {
  }

  lemma HexRunStops(hex: string, rest: string)
    requires forall i :: 0 <= i < |hex| ==> IsHexDigit(hex[i])
    requires |rest| > 0 && !IsHexDigit(rest[0])
    ensures HexRun(hex + rest) == |hex|
    decreases |hex|
  {
    if |hex| > 0 {
      assert (hex + rest)[1..] == hex[1..] + rest;
      HexRunStops(hex[1..], rest);
    }
  }

  /** "%02X" reads back as the number it prints. */
  lemma Hex2Value(n: nat)
    ensures HexValue(Hex2(n)) == n
  {
    HexDigitsValue(n);
    if n < 16 {
      var d := HexDigits(n);
      assert ("0" + d)[..1] == "0";
      assert HexValue("0") == 0;
    }
  }

  lemma {:induction false} HexDigitsValue(n: nat)
    ensures HexValue(HexDigits(n)) == n
  {
    if n >= 16 {
      HexDigitsValue(n / 16);
      var s := HexDigits(n);
      assert s[..|s| - 1] == HexDigits(n / 16);
    }
  }

  /** Characters up to 0xFF take two digits; any larger code point takes more. */
  lemma Hex2Length(n: nat)
    ensures |Hex2(n)| >= 2
    ensures |Hex2(n)| == 2 <==> n <= 0xFF
  {
    if n >= 16 {
      if n < 256 {
        assert HexDigits(n / 16) == [HexChar(n / 16)];
      } else {
        assert |HexDigits(n / 16)| >= 2 by {
          assert n / 16 >= 16;
        }
      }
    }
  }
}
