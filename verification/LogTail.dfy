/** Reading the last lines of a log file backwards, block by block. */
module LogTail {

  newtype Byte = x: int | 0 <= x < 256

  const NL: Byte := 10
  const CR: Byte := 13

  type Bytes = seq<Byte>

  predicate IsBreak(b: Byte) { b == NL || b == CR }

  /** Where the first line ends. */
  function LineEnd(s: Bytes): (n: nat)
    ensures n <= |s| && (n < |s| ==> IsBreak(s[n])) && forall i | 0 <= i < n :: !IsBreak(s[i])
  {
    if s == [] || IsBreak(s[0]) then 0 else 1 + LineEnd(s[1..])
  }

  /** Where the next line starts: a carriage return and the newline after it end one line. */
  function NextLine(s: Bytes): (m: nat)
    requires s != []
    ensures 0 < m <= |s|
  {
    var n := LineEnd(s);
    if n == |s| then n else if s[n] == CR && n + 1 < |s| && s[n + 1] == NL then n + 2 else n + 1
  }

  /** `bytes.splitlines()` */
  function SplitLines(s: Bytes): seq<Bytes> {
    if s == [] then [] else [s[..LineEnd(s)]] + SplitLines(s[NextLine(s)..])
  }

  function CountNL(s: Bytes): nat {
    if s == [] then 0 else CountNL(s[..|s| - 1]) + (if s[|s| - 1] == NL then 1 else 0)
  }

  function Last(lines: seq<Bytes>, n: nat): seq<Bytes> {
    if n <= |lines| then lines[|lines| - n..] else lines
  }

  /** `b"\n".join(lines)` */
  function Join(lines: seq<Bytes>): Bytes {
    if lines == [] then [] else if |lines| == 1 then lines[0] else lines[0] + [NL] + Join(lines[1..])
  }

  datatype Result = ValueError | Tail(text: Bytes)

  lemma {:induction false} LineEndFrom(s: Bytes, c: nat)
    requires c <= LineEnd(s)
    ensures LineEnd(s[c..]) == LineEnd(s) - c
    decreases c
  {
    if c > 0 {
      assert s[1..][c - 1..] == s[c..];
      LineEndFrom(s[1..], c - 1);
    } else {
      assert s[0..] == s;
    }
  }

  /** All lines of a suffix but its first are the last lines of the whole, even when the cut falls inside a
      line or between a carriage return and its newline. */
  lemma {:induction false} SuffixLines(s: Bytes, c: nat) returns (k: nat)
    requires c < |s|
    ensures 1 <= |SplitLines(s[c..])| && k <= |SplitLines(s)|
    ensures SplitLines(s)[k..] == SplitLines(s[c..])[1..]
    decreases |s|
  {
    hide LineEnd, NextLine;
    var m := NextLine(s);
    var rest := s[m..];
    assert SplitLines(s)[1..] == SplitLines(rest);
    hide SplitLines;
    if c >= m {
      var j := SuffixLines(rest, c - m);
      assert rest[c - m..] == s[c..];
      k := j + 1;
      assert SplitLines(s)[k..] == SplitLines(s)[1..][j..];
    } else {
      FirstLineOfSuffix(s, c);
      k := 1;
    }
  }

  lemma FirstLineOfSuffix(s: Bytes, c: nat)
    requires c < |s| && c < NextLine(s)
    ensures |SplitLines(s[c..])| >= 1 && SplitLines(s[c..])[1..] == SplitLines(s[NextLine(s)..])
  {
    hide NextLine, LineEnd;
    var m, t := NextLine(s), s[c..];
    NextOfSuffix(s, c);
    assert t[m - c..] == s[m..];
    assert SplitLines(t)[1..] == SplitLines(t[m - c..]);
  }

  lemma NextOfSuffix(s: Bytes, c: nat)
    requires c < |s| && c < NextLine(s)
    ensures NextLine(s[c..]) == NextLine(s) - c
  {
    var n, t := LineEnd(s), s[c..];
    if c <= n {
      LineEndFrom(s, c);
      assert n < |s| ==> t[n - c] == s[n];
      assert n + 1 < |s| ==> t[n + 1 - c] == s[n + 1];
    } else {
      assert t[0] == NL;
    }
    hide LineEnd;
  }

  lemma {:induction false} CountSplits(s: Bytes, m: nat)
    requires m <= |s|
    ensures CountNL(s) == CountNL(s[..m]) + CountNL(s[m..])
    decreases |s|
  {
    if m < |s| {
      CountSplits(s[..|s| - 1], m);
      assert s[..|s| - 1][..m] == s[..m] && s[..|s| - 1][m..] == s[m..][..|s| - m - 1];
    } else {
      assert s[..m] == s && s[m..] == [];
    }
  }

  lemma {:induction false} NoNL(s: Bytes)
    requires forall i | 0 <= i < |s| :: s[i] != NL
    ensures CountNL(s) == 0
    decreases |s|
  {
    if s != [] { NoNL(s[..|s| - 1]); }
  }

  /** Every newline ends a line. */
  lemma {:induction false} AtLeastAsManyLines(s: Bytes)
    ensures CountNL(s) <= |SplitLines(s)|
    decreases |s|
  {
    if s != [] {
      var m := NextLine(s);
      CountSplits(s, m);
      AtLeastAsManyLines(s[m..]);
      assert CountNL(s[..m]) <= 1 by {
        NoNL(s[..m - 1]);
        assert s[..m][..m - 1] == s[..m - 1];
      }
    }
  }

  /** A suffix with more newlines than the wanted lines has the same last lines as the whole. */
  lemma EnoughRead(s: Bytes, c: nat, lines: nat)
    requires c <= |s| && (c == 0 || CountNL(s[c..]) > lines) && lines >= 1
    ensures Last(SplitLines(s[c..]), lines) == Last(SplitLines(s), lines)
  {
    assert CountNL([]) == 0;
    hide SplitLines, CountNL;
    if c == 0 {
      assert s[0..] == s;
    } else {
      assert s[|s|..] == [];
      var k := SuffixLines(s, c);
      AtLeastAsManyLines(s[c..]);
      SameLast(SplitLines(s[c..]), SplitLines(s), k, lines);
    }
  }

  lemma SameLast(part: seq<Bytes>, whole: seq<Bytes>, k: nat, n: nat)
    requires n < |part| && k <= |whole| && whole[k..] == part[1..]
    ensures Last(part, n) == Last(whole, n)
  {
    assert |whole| - k == |part| - 1;
    assert part[|part| - n..] == part[1..][|part| - 1 - n..];
    assert whole[|whole| - n..] == whole[k..][|part| - 1 - n..];
  }

  // ----- what the lines are -----

  predicate IsTerminator(t: Bytes) { t == [NL] || t == [CR] || t == [CR, NL] }

  /** Lines followed by their terminators. */
  function Spell(lines: seq<Bytes>, ends: seq<Bytes>): Bytes
    requires |lines| == |ends|
  {
    if lines == [] then [] else lines[0] + ends[0] + Spell(lines[1..], ends[1..])
  }

  /** The lines with these terminators spell the text; every line but the last is terminated, and a last line without
      a terminator is not empty; no line contains a newline or a carriage return, and no carriage return that
      ends a line is followed by a newline. */
  ghost predicate IsSplit(s: Bytes, lines: seq<Bytes>, ends: seq<Bytes>) {
    && |lines| == |ends| && Spell(lines, ends) == s
    && (forall i | 0 <= i < |ends| :: IsTerminator(ends[i]) || (ends[i] == [] && i == |ends| - 1 && lines[i] != []))
    && (forall i | 0 <= i < |lines| :: NL !in lines[i] && CR !in lines[i])
    && (forall i | 0 <= i < |ends| - 1 && ends[i] == [CR] :: lines[i + 1] != [] || ends[i + 1] != [NL])
  }

  /** The text splits in this way. */
  lemma {:induction false} SplitLinesSplits(s: Bytes) returns (ends: seq<Bytes>)
    ensures IsSplit(s, SplitLines(s), ends)
    decreases |s|
  {
    if s == [] {
      ends := [];
    } else {
      hide LineEnd, NextLine, IsSplit, IsTerminator, SplitLines;
      SplitStep(s);
      var n, m := LineEnd(s), NextLine(s);
      var rest := SplitLinesSplits(s[m..]);
      FirstTerminator(s, SplitLines(s[m..]), rest);
      OneMoreLine(s[..n], s[n..m], s[m..], SplitLines(s[m..]), rest);
      assert s == s[..n] + s[n..m] + s[m..];
      ends := [s[n..m]] + rest;
    }
  }

  lemma SplitStep(s: Bytes)
    requires s != []
    ensures LineEnd(s) <= NextLine(s) && SplitLines(s) == [s[..LineEnd(s)]] + SplitLines(s[NextLine(s)..])
    ensures s == s[..LineEnd(s)] + s[LineEnd(s)..NextLine(s)] + s[NextLine(s)..]
  {
    hide LineEnd, NextLine;
    NextAfterEnd(s);
    Pieces(s, LineEnd(s), NextLine(s));
  }

  lemma Pieces(s: Bytes, n: nat, m: nat)
    requires n <= m <= |s|
    ensures s == s[..n] + s[n..m] + s[m..]
  {
  }

  lemma OneMoreLine(line: Bytes, end: Bytes, tail: Bytes, lines: seq<Bytes>, ends: seq<Bytes>)
    requires IsSplit(tail, lines, ends) && NL !in line && CR !in line
    requires IsTerminator(end) || (end == [] && lines == [] && line != [])
    requires end == [CR] && lines != [] ==> lines[0] != [] || ends[0] != [NL]
    ensures IsSplit(line + end + tail, [line] + lines, [end] + ends)
  {
    var more, moreEnds := [line] + lines, [end] + ends;
    assert more[1..] == lines && moreEnds[1..] == ends;
    hide IsTerminator;
    forall i | 0 < i < |more| ensures more[i] == lines[i - 1] && moreEnds[i] == ends[i - 1] {}
  }

  lemma FirstTerminator(s: Bytes, lines: seq<Bytes>, ends: seq<Bytes>)
    requires s != [] && IsSplit(s[NextLine(s)..], lines, ends)
    ensures var n, m := LineEnd(s), NextLine(s);
            && n <= m
            && (IsTerminator(s[n..m]) || (s[n..m] == [] && lines == [] && n > 0))
            && (s[n..m] == [CR] && lines != [] ==> lines[0] != [] || ends[0] != [NL])
            && NL !in s[..n] && CR !in s[..n]
  {
    var n, m := LineEnd(s), NextLine(s);
    var rest := s[m..];
    TerminatorAt(s);
    hide LineEnd, NextLine;
    if lines != [] {
      SpellStarts(lines, ends);
      assert rest != [];
      assert rest[0] == s[m];
    }
  }

  lemma TerminatorAt(s: Bytes)
    requires s != []
    ensures var n, m := LineEnd(s), NextLine(s);
            && n <= m
            && (if n == |s| then m == |s| && n > 0 else IsTerminator(s[n..m]) && (s[n..m] == [CR] && m < |s| ==> s[m] != NL))
  {
    NextAfterEnd(s);
    hide LineEnd, NextLine;
    var n := LineEnd(s);
    if n < |s| { BreakAt(s, n, NextLine(s)); }
  }

  lemma NextAfterEnd(s: Bytes)
    requires s != []
    ensures var n := LineEnd(s);
            NextLine(s) == if n == |s| then n else if s[n] == CR && n + 1 < |s| && s[n + 1] == NL then n + 2 else n + 1
  {
    hide LineEnd;
  }

  lemma BreakAt(s: Bytes, n: nat, m: nat)
    requires n < m <= |s| && IsBreak(s[n])
    requires m == if s[n] == CR && n + 1 < |s| && s[n + 1] == NL then n + 2 else n + 1
    ensures IsTerminator(s[n..m]) && (s[n..m] == [CR] && m < |s| ==> s[m] != NL)
  {
    var end := s[n..m];
    assert end[0] == s[n];
    if |end| == 2 {
      assert end[1] == s[n + 1];
      assert end == [CR, NL];
    } else {
      assert end == [s[n]];
    }
  }

  lemma SpellStarts(lines: seq<Bytes>, ends: seq<Bytes>)
    requires |lines| == |ends| && lines != [] && lines[0] + ends[0] != []
    ensures Spell(lines, ends) != [] && Spell(lines, ends)[0] == (lines[0] + ends[0])[0]
  {
  }

  /** And in no other: the conditions determine the lines. */
  lemma {:induction false} SplitIsUnique(s: Bytes, lines: seq<Bytes>, ends: seq<Bytes>)
    requires IsSplit(s, lines, ends)
    ensures lines == SplitLines(s)
    decreases |lines|
  {
    if lines != [] {
      hide LineEnd, NextLine, IsTerminator, IsSplit, SplitLines, Spell;
      TailSplits(s, lines, ends);
      FirstLine(s, lines, ends);
      SplitStep(s);
      var tail := Spell(lines[1..], ends[1..]);
      SplitIsUnique(tail, lines[1..], ends[1..]);
      assert s[NextLine(s)..] == tail;
      assert lines == [lines[0]] + lines[1..];
    }
  }

  lemma TailSplits(s: Bytes, lines: seq<Bytes>, ends: seq<Bytes>)
    requires IsSplit(s, lines, ends) && lines != []
    ensures |ends| == |lines| && s == lines[0] + ends[0] + Spell(lines[1..], ends[1..]) && s != []
    ensures IsSplit(Spell(lines[1..], ends[1..]), lines[1..], ends[1..])
  {
  }

  lemma FirstLine(s: Bytes, lines: seq<Bytes>, ends: seq<Bytes>)
    requires IsSplit(s, lines, ends) && lines != [] && s != []
    ensures |ends| == |lines| && s[..LineEnd(s)] == lines[0] && NextLine(s) == |lines[0]| + |ends[0]|
  {
    var line, end, tail := lines[0], ends[0], Spell(lines[1..], ends[1..]);
    assert s == line + end + tail;
    var n := LineEnd(s);
    forall i | 0 <= i < |line| ensures !IsBreak(s[i]) {
      assert s[i] == line[i];
      assert line[i] in line;
    }
    if end == [] {
      assert tail == [];
    } else {
      assert s[|line|] == end[0];
      if end == [CR] && tail != [] {
        assert s[|line| + 1] == tail[0];
        assert tail[0] == (lines[1] + ends[1])[0];
        assert lines[1] != [] ==> lines[1][0] in lines[1];
      }
    }
  }

  // ----- text without carriage returns -----

  /** The text without its final newline, if it ends in one. */
  function WithoutFinalNL(s: Bytes): Bytes { if s != [] && s[|s| - 1] == NL then s[..|s| - 1] else s }

  lemma {:induction false} JoinedLines(s: Bytes)
    requires CR !in s
    ensures Join(SplitLines(s)) == WithoutFinalNL(s)
    ensures forall i | 0 <= i < |SplitLines(s)| :: NL !in SplitLines(s)[i]
    ensures s != [] <==> SplitLines(s) != []
    decreases |s|
  {
    if s != [] {
      hide LineEnd, NextLine, SplitLines, WithoutFinalNL, IsTerminator;
      var n, m := LineEnd(s), NextLine(s);
      JoinedLines(s[m..]);
      SplitStep(s);
      FirstPlainLine(s);
      JoinStep(s[..n], s[m..], SplitLines(s[m..]));
      assert s[n..m] == [NL] ==> s == s[..n] + [NL] + s[m..];
      assert s[n..m] == [] ==> s == s[..n] + s[m..] == s[..n];
    } else {
      assert SplitLines(s) == [];
    }
  }

  lemma FirstPlainLine(s: Bytes)
    requires s != [] && CR !in s
    ensures var n, m := LineEnd(s), NextLine(s);
            n <= m && (s[n..m] == [NL] || (s[n..m] == [] && s[m..] == [])) && NL !in s[..n]
  {
    NextAfterEnd(s);
    hide NextLine;
    var n := LineEnd(s);
    if n < |s| { assert s[n] in s && s[n..n + 1] == [s[n]]; }
  }

  lemma JoinStep(line: Bytes, rest: Bytes, lines: seq<Bytes>)
    requires NL !in line && (rest == [] <==> lines == []) && Join(lines) == WithoutFinalNL(rest)
    ensures Join([line] + lines) == if rest == [] then line else line + [NL] + WithoutFinalNL(rest)
    ensures WithoutFinalNL(line + [NL] + rest) == if rest == [] then line else line + [NL] + WithoutFinalNL(rest)
    ensures WithoutFinalNL(line) == line
  {
    var whole := line + [NL] + rest;
    assert ([line] + lines)[1..] == lines;
    if rest != [] {
      assert whole[|whole| - 1] == rest[|rest| - 1];
      assert whole[..|whole| - 1] == line + [NL] + rest[..|rest| - 1];
    } else {
      assert whole[..|whole| - 1] == line;
    }
    assert line != [] ==> line[|line| - 1] in line;
  }

  lemma {:induction false} JoinEndsWith(lines: seq<Bytes>, k: nat) returns (c: nat)
    requires k < |lines|
    ensures c <= |Join(lines)| && Join(lines)[c..] == Join(lines[k..])
    ensures if k == 0 then c == 0 else c > 0 && Join(lines)[c - 1] == NL
    decreases k
  {
    if k == 0 {
      c := 0;
      assert lines[0..] == lines;
    } else {
      var d := JoinEndsWith(lines[1..], k - 1);
      assert lines[1..][k - 1..] == lines[k..];
      c := |lines[0]| + 1 + d;
      var joined := lines[0] + [NL] + Join(lines[1..]);
      assert joined[c..] == Join(lines[1..])[d..];
    }
  }

  lemma {:induction false} JoinCount(lines: seq<Bytes>)
    requires lines != [] && forall i | 0 <= i < |lines| :: NL !in lines[i]
    ensures CountNL(Join(lines)) == |lines| - 1
    decreases |lines|
  {
    NoNL(lines[0]);
    if |lines| > 1 {
      JoinCount(lines[1..]);
      var rest := Join(lines[1..]);
      var joined := lines[0] + [NL] + rest;
      CountSplits(joined, |lines[0]| + 1);
      assert joined[..|lines[0]| + 1] == lines[0] + [NL] && joined[|lines[0]| + 1..] == rest;
      assert (lines[0] + [NL])[..|lines[0]|] == lines[0];
    }
  }

  /** The end of the text from a line start on, with as many lines as wanted, or the whole of it if it has no more. */
  ghost predicate IsLastLines(text: Bytes, file: Bytes, lines: nat)
    requires lines >= 1
  {
    var whole := WithoutFinalNL(file);
    exists c ::
      && 0 <= c <= |whole| && text == whole[c..]
      && (if c == 0 then CountNL(text) < lines else whole[c - 1] == NL && CountNL(text) == lines - 1)
  }

  /** Without carriage returns the tail is the end of the file itself, cut at a line start. */
  lemma TailIsSuffix(file: Bytes, lines: nat)
    requires lines >= 1 && CR !in file
    ensures IsLastLines(Join(Last(SplitLines(file), lines)), file, lines)
  {
    var all := SplitLines(file);
    JoinedLines(file);
    var whole := WithoutFinalNL(file);
    if all == [] {
      assert whole[0..] == [] == Join(Last(all, lines)) && CountNL([]) == 0;
    } else {
      var k := if lines <= |all| then |all| - lines else 0;
      assert all[0..] == all;
      var c := JoinEndsWith(all, k);
      assert Last(all, lines) == all[k..];
      JoinCount(all[k..]);
      assert Join(all[k..]) == whole[c..];
    }
  }

  /** For every file, every number of lines and every block size the backward reader returns the last lines
      of the whole file. */
  method TailLogFile(file: Bytes, lines: int, blockSize: nat) returns (result: Result)
    requires blockSize >= 1
    ensures result.ValueError? <==> lines < 1
    ensures lines >= 1 ==> result == Tail(Join(Last(SplitLines(file), lines)))
    ensures lines >= 1 && CR !in file ==> IsLastLines(result.text, file, lines)
  {
    if lines < 1 { return ValueError; }
    var data: Bytes := [];
    var cursor := |file|;
    while cursor > 0 && CountNL(data) <= lines
      invariant 0 <= cursor <= |file| && data == file[cursor..]
      decreases cursor
    {
      var readSize := if blockSize < cursor then blockSize else cursor;
      cursor := cursor - readSize;
      data := file[cursor..cursor + readSize] + data;
    }
    EnoughRead(file, cursor, lines);
    result := Tail(Join(Last(SplitLines(data), lines)));
    if CR !in file { TailIsSuffix(file, lines); }
  }
}
