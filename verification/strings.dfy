/**
  The three functions of Go's `strings` package the program uses, for the
  one-character separators and the one replacement it applies:
  `strings.Split(s, "\n")`, `strings.Join(parts, sep)` and
  `strings.ReplaceAll(s, "\r\n", "\n")`.
 */
module Strings {

  /** Number of occurrences of `c` in `s`. */
  function Count(s: string, c: char): nat {
    if |s| == 0 then 0 else (if s[0] == c then 1 else 0) + Count(s[1..], c)
  }

  /** Every character of `s` is `c`. */
  predicate AllChar(s: string, c: char) {
    forall i :: 0 <= i < |s| ==> s[i] == c
  }

  /** `strings.Split(s, string(c))`: the pieces between occurrences of `c`.
      The empty string splits into one empty piece. */
  function Split(s: string, c: char): (pieces: seq<string>)
    ensures |pieces| == Count(s, c) + 1
    ensures forall i :: 0 <= i < |pieces| ==> c !in pieces[i]
  {
    if |s| == 0 then [""]
    else
      var rest := Split(s[1..], c);
      if s[0] == c then [""] + rest
      else [[s[0]] + rest[0]] + rest[1..]
  }

  /** Sum of the lengths of `parts`. */
  function TotalLength(parts: seq<string>): nat {
    if |parts| == 0 then 0 else |parts[0]| + TotalLength(parts[1..])
  }

  /** `strings.Join(parts, sep)`: every part, one separator between each
      two neighbours, none at either end. */
  function Join(parts: seq<string>, sep: string): (s: string)
    ensures |parts| == 0 ==> s == ""
    ensures |parts| > 0 ==> |s| == TotalLength(parts) + (|parts| - 1) * |sep|
    ensures |parts| > 0 ==> parts[0] <= s
  {
    if |parts| == 0 then ""
    else if |parts| == 1 then parts[0]
    else parts[0] + sep + Join(parts[1..], sep)
  }

  /** `strings.ReplaceAll(s, "\r\n", "\n")`: Go scans left to right and
      replaces non-overlapping matches, so in "\r\r\n" only the second
      '\r' goes. */
  function ReplaceCrLf(s: string): (r: string)
    ensures |r| <= |s|
    ensures Count(r, '\n') == Count(s, '\n')
  {
    if |s| >= 2 && s[0] == '\r' && s[1] == '\n' then "\n" + ReplaceCrLf(s[2..])
    else if |s| == 0 then ""
    else [s[0]] + ReplaceCrLf(s[1..])
  }

  /** Drops one trailing '\r', the remains of a CRLF line ending. */
  function TrimCr(line: string): (t: string)
    ensures t <= line
  {
    if |line| > 0 && line[|line| - 1] == '\r' then line[..|line| - 1] else line
  }

  /** Trims a trailing '\r' from every piece but the last: the lines of a
      file whose line breaks may be CRLF or LF. */
  function TrimLineEnds(lines: seq<string>): (trimmed: seq<string>)
    ensures |trimmed| == |lines|
  {
    if |lines| <= 1 then lines
    else [TrimCr(lines[0])] + TrimLineEnds(lines[1..])
  }

  /** Every character is a line break: a '\n', or a '\r' that begins a CRLF pair. */
  predicate LineBreaksOnly(s: string) {
    forall i :: 0 <= i < |s| ==> BreakAt(s, i)
  }

  /** Position `i` holds a '\n', or the '\r' of a CRLF pair. */
  predicate BreakAt(s: string, i: nat)
    requires i < |s|
  {
    s[i] == '\n' || (s[i] == '\r' && i + 1 < |s| && s[i + 1] == '\n')
  }

  // ---------------------------------------------------------------------
  // Split and Join are inverse to each other

  lemma {:induction false} JoinSplit(s: string, c: char)
    ensures Join(Split(s, c), [c]) == s
  {
    if |s| > 0 {
      var rest := Split(s[1..], c);
      JoinSplit(s[1..], c);
      if s[0] == c {
        assert Join([""] + rest, [c]) == "" + [c] + Join(rest, [c]);
      } else {
        var pieces := [[s[0]] + rest[0]] + rest[1..];
        if |rest| == 1 {
          assert Join(pieces, [c]) == [s[0]] + rest[0];
        } else {
          assert Join(rest, [c]) == rest[0] + [c] + Join(rest[1..], [c]);
          assert pieces[1..] == rest[1..];
          assert Join(pieces, [c]) == [s[0]] + rest[0] + [c] + Join(rest[1..], [c]);
        }
      }
    }
  }

  /** Splitting text that starts with a separator-free prefix `a` glues `a`
      onto the first piece of the rest. */
  lemma {:induction false} SplitPrefix(a: string, b: string, c: char)
    requires c !in a
    ensures Split(a + b, c) == [a + Split(b, c)[0]] + Split(b, c)[1..]
  {
    if |a| > 0 {
      assert (a + b)[1..] == a[1..] + b;
      SplitPrefix(a[1..], b, c);
      var S := Split(b, c);
      var R := Split(a[1..] + b, c);
      assert R[0] == a[1..] + S[0];
      assert R[1..] == S[1..];
      assert a[0] != c;
      assert Split(a + b, c) == [[a[0]] + R[0]] + R[1..];
      assert [a[0]] + (a[1..] + S[0]) == a + S[0];
    } else {
      var S := Split(b, c);
      assert a + b == b;
      assert a + S[0] == S[0];
      assert [S[0]] + S[1..] == S;
    }
  }

  lemma {:induction false} SplitJoin(parts: seq<string>, c: char)
    requires |parts| >= 1
    requires forall i :: 0 <= i < |parts| ==> c !in parts[i]
    ensures Split(Join(parts, [c]), c) == parts
  {
    if |parts| == 1 {
      SplitPrefix(parts[0], "", c);
      assert parts[0] + "" == parts[0];
    } else {
      var tail := Join(parts[1..], [c]);
      SplitJoin(parts[1..], c);
      SplitPrefix(parts[0], [c] + tail, c);
      assert ([c] + tail)[1..] == tail;
      assert Split([c] + tail, c) == [""] + parts[1..];
      assert parts[0] + [c] + tail == parts[0] + ([c] + tail);
      assert parts[0] + "" == parts[0];
    }
  }

  // ---------------------------------------------------------------------
  // ReplaceCrLf, described by lines

  /** One step of the scan when the text does not start with a CRLF pair. */
  lemma ReplaceCrLfCons(x: char, t: string)
    requires x != '\r' || |t| == 0 || t[0] != '\n'
    ensures ReplaceCrLf([x] + t) == [x] + ReplaceCrLf(t)
  {
    assert ([x] + t)[1..] == t;
  }

  /** One step of the scan over a CRLF pair. */
  lemma ReplaceCrLfPair(t: string)
    ensures ReplaceCrLf("\r\n" + t) == "\n" + ReplaceCrLf(t)
  {
    assert ("\r\n" + t)[2..] == t;
  }

  lemma {:induction false} ReplaceCrLfNoLf(a: string)
    requires '\n' !in a
    ensures ReplaceCrLf(a) == a
  {
    if |a| > 0 {
      assert a == [a[0]] + a[1..];
      ReplaceCrLfNoLf(a[1..]);
      ReplaceCrLfCons(a[0], a[1..]);
    }
  }

  /** Normalising a line followed by "\n" drops the line's CR terminator, if
      any, and continues after the break. */
  lemma {:induction false} ReplaceCrLfLine(a: string, b: string)
    requires '\n' !in a
    ensures ReplaceCrLf(a + "\n" + b) == TrimCr(a) + "\n" + ReplaceCrLf(b)
  {
    if |a| == 0 {
      assert a + "\n" + b == ['\n'] + b;
      ReplaceCrLfCons('\n', b);
    } else if a == "\r" {
      assert a + "\n" + b == "\r\n" + b;
      ReplaceCrLfPair(b);
    } else {
      var t := a[1..] + "\n" + b;
      assert a + "\n" + b == [a[0]] + t;
      assert |a| >= 2 ==> t[0] == a[1];
      ReplaceCrLfCons(a[0], t);
      ReplaceCrLfLine(a[1..], b);
      TrimCrCons(a);
    }
  }

  lemma TrimCrCons(a: string)
    requires |a| >= 1 && a != "\r"
    ensures TrimCr(a) == [a[0]] + TrimCr(a[1..])
  {
    if |a| >= 2 {
      assert a[1..][..|a[1..]| - 1] == a[1..|a| - 1];
    }
  }

  lemma {:induction false} ReplaceCrLfJoin(lines: seq<string>)
    requires |lines| >= 1
    requires forall i :: 0 <= i < |lines| ==> '\n' !in lines[i]
    ensures ReplaceCrLf(Join(lines, "\n")) == Join(TrimLineEnds(lines), "\n")
  {
    if |lines| == 1 {
      ReplaceCrLfNoLf(lines[0]);
    } else {
      ReplaceCrLfJoin(lines[1..]);
      ReplaceCrLfLine(lines[0], Join(lines[1..], "\n"));
    }
  }

  /** Reference definition of the CRLF normalisation: cut the text into raw
      lines, trim the CR off each line that a '\n' ends, and glue the lines
      back with "\n". */
  lemma {:induction false} ReplaceCrLfByLines(s: string)
    ensures ReplaceCrLf(s) == Join(TrimLineEnds(Split(s, '\n')), "\n")
  {
    JoinSplit(s, '\n');
    ReplaceCrLfJoin(Split(s, '\n'));
  }

  lemma {:induction false} TrimLineEndsNoSep(lines: seq<string>, c: char)
    requires forall i :: 0 <= i < |lines| ==> c !in lines[i]
    ensures forall i :: 0 <= i < |TrimLineEnds(lines)| ==> c !in TrimLineEnds(lines)[i]
  {
    if |lines| > 1 {
      TrimLineEndsNoSep(lines[1..], c);
      var t := TrimLineEnds(lines);
      forall i | 0 <= i < |t| ensures c !in t[i] {
        if i == 0 {
          assert TrimCr(lines[0]) <= lines[0];
        } else {
          assert t[i] == TrimLineEnds(lines[1..])[i - 1];
        }
      }
    }
  }

  /** The lines of the normalised text are the raw lines, each one that a
      '\n' ends stripped of its trailing '\r'. A lone '\r' anywhere else
      stays where it is. */
  lemma LinesOfReplaceCrLf(s: string)
    ensures Split(ReplaceCrLf(s), '\n') == TrimLineEnds(Split(s, '\n'))
  {
    ReplaceCrLfByLines(s);
    TrimLineEndsNoSep(Split(s, '\n'), '\n');
    SplitJoin(TrimLineEnds(Split(s, '\n')), '\n');
  }

  // ---------------------------------------------------------------------
  // Text that is nothing but line breaks

  lemma AllCharCons(x: char, r: string, c: char)
    ensures AllChar([x] + r, c) <==> x == c && AllChar(r, c)
  {
    if x == c && AllChar(r, c) {
      forall i | 0 <= i < |[x] + r| ensures ([x] + r)[i] == c {
        if i > 0 { assert ([x] + r)[i] == r[i - 1]; }
      }
    }
    if AllChar([x] + r, c) {
      assert ([x] + r)[0] == x;
      forall i | 0 <= i < |r| ensures r[i] == c {
        assert r[i] == ([x] + r)[i + 1];
      }
    }
  }

  /** A break ("\n" or "\r\n") in front of `t` keeps it line breaks only, or not. */
  lemma LineBreaksOnlyBreak(p: string, t: string)
    requires p == "\n" || p == "\r\n"
    ensures LineBreaksOnly(p + t) <==> LineBreaksOnly(t)
  {
    var s := p + t;
    var k := |p|;
    if LineBreaksOnly(t) {
      forall i | 0 <= i < |s| ensures BreakAt(s, i) {
        if i >= k {
          assert s[i] == t[i - k];
          assert BreakAt(t, i - k);
          if i - k + 1 < |t| { assert s[i + 1] == t[i - k + 1]; }
        } else if i == k - 1 {
          assert s[i] == '\n';
        } else {
          assert s[i] == '\r' && s[i + 1] == '\n';
        }
      }
    }
    if LineBreaksOnly(s) {
      forall i | 0 <= i < |t| ensures BreakAt(t, i) {
        var j := i + k;
        assert t[i] == s[j];
        assert BreakAt(s, j);
        if i + 1 < |t| { assert t[i + 1] == s[j + 1]; }
      }
    }
  }

  /** Every piece is the empty string. */
  predicate AllEmpty(pieces: seq<string>) {
    forall i :: 0 <= i < |pieces| ==> pieces[i] == ""
  }

  lemma AllEmptyCons(p: string, rest: seq<string>)
    ensures AllEmpty([p] + rest) <==> p == "" && AllEmpty(rest)
  {
    var pieces := [p] + rest;
    assert pieces[0] == p;
    if p == "" && AllEmpty(rest) {
      forall i | 0 <= i < |pieces| ensures pieces[i] == "" {
        if i > 0 { assert pieces[i] == rest[i - 1]; }
      }
    }
    if AllEmpty(pieces) {
      forall i | 0 <= i < |rest| ensures rest[i] == "" {
        assert rest[i] == pieces[i + 1];
      }
    }
  }

  /** All pieces are empty exactly when the text is nothing but separators. */
  lemma {:induction false} SplitAllEmpty(s: string, c: char)
    ensures AllEmpty(Split(s, c)) <==> AllChar(s, c)
  {
    if |s| > 0 {
      assert s == [s[0]] + s[1..];
      AllCharCons(s[0], s[1..], c);
      SplitAllEmpty(s[1..], c);
      var rest := Split(s[1..], c);
      if s[0] == c {
        assert Split(s, c) == [""] + rest;
        AllEmptyCons("", rest);
      } else {
        var pieces := Split(s, c);
        assert pieces == [[s[0]] + rest[0]] + rest[1..];
        AllEmptyCons(pieces[0], pieces[1..]);
        assert pieces == [pieces[0]] + pieces[1..];
        assert pieces[0] != "";
      }
    }
  }

  /** Normalisation leaves only '\n' exactly when the text held only line breaks. */
  lemma {:induction false} ReplaceCrLfAllLf(s: string)
    ensures AllChar(ReplaceCrLf(s), '\n') <==> LineBreaksOnly(s)
  {
    if |s| >= 2 && s[0] == '\r' && s[1] == '\n' {
      var t := s[2..];
      assert s == "\r\n" + t;
      ReplaceCrLfAllLf(t);
      ReplaceCrLfPair(t);
      AllCharCons('\n', ReplaceCrLf(t), '\n');
      LineBreaksOnlyBreak("\r\n", t);
    } else if |s| > 0 {
      var t := s[1..];
      assert s == [s[0]] + t;
      ReplaceCrLfAllLf(t);
      ReplaceCrLfCons(s[0], t);
      AllCharCons(s[0], ReplaceCrLf(t), '\n');
      if s[0] == '\n' {
        assert [s[0]] == "\n";
        LineBreaksOnlyBreak("\n", t);
      } else {
        assert !AllChar(ReplaceCrLf(s), '\n');
        assert !BreakAt(s, 0);
        assert !LineBreaksOnly(s);
      }
    }
  }
}
