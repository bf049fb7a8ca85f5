/** Splitting a long message into chunks that can be delivered one by one. */
module TelegramText {
  import opened PythonText

  /** Every chunk followed by what was dropped after it. */
  function Assemble(chunks: seq<string>, gaps: seq<string>): string
    requires |chunks| == |gaps|
  {
    if chunks == [] then "" else Assemble(chunks[..|chunks| - 1], gaps[..|gaps| - 1]) + chunks[|chunks| - 1] + gaps[|gaps| - 1]
  }

  ghost predicate AllBlank(gaps: seq<string>) { forall i | 0 <= i < |gaps| :: IsBlank(gaps[i]) }

  /** Deliverable: not empty, no surrounding whitespace, within the limit. */
  ghost predicate AllDeliverable(chunks: seq<string>, maxChars: int) {
    forall i | 0 <= i < |chunks| :: 0 < |chunks[i]| <= maxChars && IsTrimmed(chunks[i])
  }

  lemma AssembleAppend(chunks: seq<string>, gaps: seq<string>, chunk: string, gap: string)
    requires |chunks| == |gaps|
    ensures Assemble(chunks + [chunk], gaps + [gap]) == Assemble(chunks, gaps) + chunk + gap
  {
    assert (chunks + [chunk])[..|chunks|] == chunks && (gaps + [gap])[..|gaps|] == gaps;
  }

  /** The back half of the window, in which a separator has to start. */
  function BackHalf(maxChars: int): int { if maxChars / 2 < 1 then 1 else maxChars / 2 }

  /** The separator starts at `i` in the back half of the window and ends at most one character past the limit. */
  predicate StartsAt(text: string, separator: string, maxChars: int, i: int) {
    BackHalf(maxChars) <= i && i + |separator| <= maxChars + 1 && i + |separator| <= |text| && text[i..i + |separator|] == separator
  }

  /** `at` lies right behind the last such start. */
  ghost predicate BehindLast(text: string, separator: string, maxChars: int, at: int) {
    StartsAt(text, separator, maxChars, at - |separator|) && forall i | StartsAt(text, separator, maxChars, i) :: i + |separator| <= at
  }

  ghost predicate Occurring(text: string, separator: string, maxChars: int) { exists i :: StartsAt(text, separator, maxChars, i) }

  /** Behind the last paragraph break in the back half of the window; without one behind the last line break, without
      that behind the last space, and only without any of these at the limit. */
  ghost predicate IsPreferredCut(text: string, maxChars: int, at: int) {
    if Occurring(text, "\n\n", maxChars) then BehindLast(text, "\n\n", maxChars, at)
    else if Occurring(text, "\n", maxChars) then BehindLast(text, "\n", maxChars, at)
    else if Occurring(text, " ", maxChars) then BehindLast(text, " ", maxChars, at)
    else at == maxChars
  }

  /** Where a long text is cut.  The cut may lie one character past the limit, but then it ends in whitespace. */
  method FindSplitIndex(text: string, maxChars: int) returns (at: int)
    requires maxChars >= 1 && |text| > maxChars
    ensures maxChars / 2 + 1 <= at <= maxChars + 1
    ensures at > maxChars ==> IsSpace(text[maxChars])
    ensures IsPreferredCut(text, maxChars, at) && CutsNoWord(text, at, maxChars)
  {
    hide StartsAt, BehindLast, Occurring, IsPreferredCut, Occurs, CutsNoWord;
    var minimum := if maxChars / 2 < 1 then 1 else maxChars / 2;
    var separators := ["\n\n", "\n", " "];
    for i := 0 to |separators|
      invariant i > 0 ==> !Occurring(text, "\n\n", maxChars)
      invariant i > 1 ==> !Occurring(text, "\n", maxChars)
      invariant i > 2 ==> !Occurring(text, " ", maxChars)
    {
      var index := RFind(text, separators[i], maxChars + 1);
      LastStart(text, separators[i], maxChars, maxChars + 1, index);
      if index >= minimum {
        at := index + |separators[i]|;
        CutBehind(text, separators[i], maxChars, at);
        ChosenCut(text, separators[i], maxChars, at);
        return;
      }
    }
    at := maxChars;
    CutAtLimit(text, maxChars);
  }

  /** What `rfind` says about the back half of the window. */
  lemma LastStart(text: string, separator: string, maxChars: int, end: nat, index: int)
    requires separator != "" && maxChars >= 1 && end == maxChars + 1 && (index == -1 || Occurs(text, separator, end, index))
    requires forall i | Occurs(text, separator, end, i) :: i <= index
    ensures index >= BackHalf(maxChars) ==> BehindLast(text, separator, maxChars, index + |separator|)
    ensures index < BackHalf(maxChars) ==> !Occurring(text, separator, maxChars)
  {
    forall i | StartsAt(text, separator, maxChars, i) ensures i <= index { assert Occurs(text, separator, end, i); }
  }

  lemma CutBehind(text: string, separator: string, maxChars: int, at: int)
    requires |text| > maxChars >= 1 && (separator == "\n\n" || separator == "\n" || separator == " ") && BehindLast(text, separator, maxChars, at)
    ensures maxChars / 2 + 1 <= at <= maxChars + 1 && (at > maxChars ==> IsSpace(text[maxChars])) && CutsNoWord(text, at, maxChars)
  {
    assert text[at - |separator|..at] == separator;
    assert text[at - 1] == text[at - |separator|..at][|separator| - 1] == separator[|separator| - 1];
  }

  lemma ChosenCut(text: string, separator: string, maxChars: int, at: int)
    requires BehindLast(text, separator, maxChars, at)
    requires || separator == "\n\n"
             || (separator == "\n" && !Occurring(text, "\n\n", maxChars))
             || (separator == " " && !Occurring(text, "\n\n", maxChars) && !Occurring(text, "\n", maxChars))
    ensures IsPreferredCut(text, maxChars, at)
  {
    hide StartsAt;
  }

  lemma CutAtLimit(text: string, maxChars: int)
    requires |text| > maxChars >= 1
    requires !Occurring(text, "\n\n", maxChars) && !Occurring(text, "\n", maxChars) && !Occurring(text, " ", maxChars)
    ensures IsPreferredCut(text, maxChars, maxChars) && CutsNoWord(text, maxChars, maxChars)
  {
    forall j | BackHalf(maxChars) <= j <= maxChars ensures text[j] != ' ' && text[j] != '\n' {
      assert text[j..j + 1] == [text[j]];
      assert !StartsAt(text, "\n", maxChars, j) && !StartsAt(text, " ", maxChars, j);
    }
  }

  /** The cut is behind a space or a line break, or the back half of the window holds neither. */
  ghost predicate CutsNoWord(text: string, at: int, maxChars: int)
    requires |text| > maxChars && 1 <= at <= maxChars + 1
  {
    || text[at - 1] == ' ' || text[at - 1] == '\n'
    || (at == maxChars && forall j | BackHalf(maxChars) <= j <= maxChars :: text[j] != ' ' && text[j] != '\n')
  }

  /** One cut: the chunk ends at `a`, the rest starts at `b`, and what lies between is blank. */
  lemma CutFacts(remaining: string, at: int, maxChars: int) returns (a: int, b: int)
    requires IsTrimmed(remaining) && |remaining| > maxChars >= 1
    requires 1 <= at <= maxChars + 1 && (at > maxChars ==> IsSpace(remaining[maxChars]))
    ensures 0 < a <= at <= b < |remaining| && a <= maxChars
    ensures RStrip(remaining[..at]) == remaining[..a] && LStrip(remaining[at..]) == remaining[b..]
    ensures IsTrimmed(remaining[..a]) && IsTrimmed(remaining[b..]) && IsBlank(remaining[a..b])
  {
    hide IsSpace;
    assert at < |remaining|;
    a, b := CutLeft(remaining, at), CutRight(remaining, at);
    forall k | 0 <= k < b - a ensures IsSpace(remaining[a..b][k]) { assert remaining[a..b][k] == remaining[a + k]; }
    assert at == maxChars + 1 ==> IsSpace(remaining[at - 1]);
    assert remaining[..a][0] == remaining[0] && remaining[..a][a - 1] == remaining[a - 1];
    assert remaining[b..][0] == remaining[b] && remaining[b..][|remaining| - b - 1] == remaining[|remaining| - 1];
  }

  function CutLeft(s: string, at: nat): (a: nat)
    requires 0 < at <= |s| && !IsSpace(s[0])
    ensures 0 < a <= at && RStrip(s[..at]) == s[..a] && !IsSpace(s[a - 1]) && forall k | a <= k < at :: IsSpace(s[k])
  {
    var head := s[..at];
    var a := Backward(head, at);
    assert forall k | a <= k < at :: head[k] == s[k] && IsSpace(s[k]);
    assert a > 0;
    assert head[a - 1] == s[a - 1] && head[..a] == s[..a];
    a
  }

  function CutRight(s: string, at: nat): (b: nat)
    requires at < |s| && !IsSpace(s[|s| - 1])
    ensures at <= b < |s| && LStrip(s[at..]) == s[b..] && !IsSpace(s[b]) && forall k | at <= k < b :: IsSpace(s[k])
  {
    var tail := s[at..];
    var n := Forward(tail, 0);
    assert tail[|tail| - 1] == s[|s| - 1];
    assert n < |tail| && tail[n] == s[at + n] && tail[n..] == s[at + n..];
    assert forall k | at <= k < at + n :: tail[k - at] == s[k] && IsSpace(s[k]);
    at + n
  }

  /** A chunk that is followed by the next one without whitespace between them fills the limit and has neither space nor
      line break in its back half: only such a chunk ends inside a word. */
  ghost predicate CutInsideWord(chunk: string, maxChars: int) {
    |chunk| == maxChars && forall j | BackHalf(maxChars) <= j < maxChars :: chunk[j] != ' ' && chunk[j] != '\n'
  }

  ghost predicate WordsAreKept(chunks: seq<string>, gaps: seq<string>, maxChars: int)
    requires |gaps| == |chunks|
  {
    forall i | 0 <= i < |chunks| && gaps[i] == "" :: CutInsideWord(chunks[i], maxChars)
  }

  /** The loop invariant: everything before `remaining` is in the chunks, and paid for. */
  ghost predicate Progress(text: string, chunks: seq<string>, gaps: seq<string>, remaining: string, maxChars: int) {
    && maxChars >= 1 && remaining != "" && IsTrimmed(remaining)
    && |gaps| == |chunks| && AllBlank(gaps) && AllDeliverable(chunks, maxChars) && WordsAreKept(chunks, gaps, maxChars)
    && text == Assemble(chunks, gaps) + remaining
    && |chunks| * (maxChars / 2 + 1) <= |text| - |remaining|
  }

  /** What the caller is promised about the stripped text. */
  ghost predicate IsSplit(text: string, chunks: seq<string>, gaps: seq<string>, maxChars: int) {
    && AllDeliverable(chunks, maxChars)
    && |gaps| == |chunks| && AllBlank(gaps) && text == Assemble(chunks, gaps)
    && (chunks != [] ==> gaps[|gaps| - 1] == "" && (|chunks| - 1) * (maxChars / 2 + 1) < |text|)
    && (forall i | 0 <= i < |chunks| - 1 && gaps[i] == "" :: CutInsideWord(chunks[i], maxChars))
  }

  lemma ProgressStep(text: string, chunks: seq<string>, gaps: seq<string>, remaining: string, maxChars: int, at: int)
      returns (gap: string)
    requires Progress(text, chunks, gaps, remaining, maxChars) && |remaining| > maxChars
    requires maxChars / 2 + 1 <= at <= maxChars + 1 && (at > maxChars ==> IsSpace(remaining[maxChars]))
    requires CutsNoWord(remaining, at, maxChars)
    ensures at < |remaining| && RStrip(remaining[..at]) != "" && |LStrip(remaining[at..])| < |remaining|
    ensures Progress(text, chunks + [RStrip(remaining[..at])], gaps + [gap], LStrip(remaining[at..]), maxChars)
  {
    hide IsSpace, LStrip, RStrip, Assemble;
    var a, b := CutFacts(remaining, at, maxChars);
    gap := remaining[a..b];
    KeptWord(remaining, a, b, at, maxChars);
    AssembleAppend(chunks, gaps, remaining[..a], gap);
    OneMore(|chunks|, maxChars / 2 + 1);
    Regroup(text, Assemble(chunks, gaps), remaining, a, b);
  }

  lemma KeptWord(remaining: string, a: int, b: int, at: int, maxChars: int)
    requires |remaining| > maxChars >= 1 && 0 < a <= at <= b < |remaining| && at <= maxChars + 1 && a <= maxChars
    requires IsTrimmed(remaining[..a]) && CutsNoWord(remaining, at, maxChars)
    ensures remaining[a..b] == "" ==> CutInsideWord(remaining[..a], maxChars)
  {
    if remaining[a..b] == "" {
      assert a == at == b;
      assert remaining[..a][a - 1] == remaining[at - 1];
    }
  }

  lemma OneMore(n: int, unit: int)
    ensures (n + 1) * unit == n * unit + unit
  {
  }

  lemma Regroup(text: string, done: string, remaining: string, a: int, b: int)
    requires 0 <= a <= b <= |remaining| && text == done + remaining
    ensures text == done + remaining[..a] + remaining[a..b] + remaining[b..]
  {
    assert remaining == remaining[..a] + remaining[a..b] + remaining[b..];
  }

  lemma LastChunk(text: string, chunks: seq<string>, gaps: seq<string>, remaining: string, maxChars: int)
    requires Progress(text, chunks, gaps, remaining, maxChars) && |remaining| <= maxChars
    ensures IsSplit(text, chunks + [remaining], gaps + [""], maxChars)
  {
    AssembleAppend(chunks, gaps, remaining, "");
  }

  lemma NothingSplit(text: string, maxChars: int)
    requires maxChars >= 1 && IsTrimmed(text)
    ensures text == "" ==> IsSplit(text, [], [], maxChars)
    ensures text != "" ==> Progress(text, [], [], text, maxChars)
  {
  }

  method SplitTelegramText(text: string, maxChars: int) returns (chunks: seq<string>, ghost gaps: seq<string>)
    requires maxChars >= 1
    ensures IsSplit(Strip(text), chunks, gaps, maxChars)
    ensures chunks == [] <==> IsBlank(text)
    ensures 0 < |Strip(text)| <= maxChars ==> chunks == [Strip(text)]
  {
    hide IsSpace, LStrip, RStrip, Strip, Progress, IsSplit;
    ghost var from, to := StripTrims(text);
    var normalized := Strip(text);
    NothingSplit(normalized, maxChars);
    chunks, gaps := [], [];
    if normalized == "" { return; }
    if |normalized| <= maxChars {
      LastChunk(normalized, [], [], normalized, maxChars);
      assert [] + [normalized] == [normalized] && [] + [""] == [""];
      return [normalized], [""];
    }
    var remaining := normalized;
    while remaining != ""
      invariant remaining != "" && Progress(normalized, chunks, gaps, remaining, maxChars)
      decreases |remaining|
    {
      if |remaining| <= maxChars {
        LastChunk(normalized, chunks, gaps, remaining, maxChars);
        chunks, gaps := chunks + [remaining], gaps + [""];
        break;
      }
      var at := FindSplitIndex(remaining, maxChars);
      ghost var gap := ProgressStep(normalized, chunks, gaps, remaining, maxChars, at);
      var chunk := RStrip(remaining[..at]);
      if chunk == "" {
        assert false;
      }
      chunks, gaps := chunks + [chunk], gaps + [gap];
      remaining := LStrip(remaining[at..]);
      ProgressGoesOn(normalized, chunks, gaps, remaining, maxChars);
    }
  }

  lemma ProgressGoesOn(text: string, chunks: seq<string>, gaps: seq<string>, remaining: string, maxChars: int)
    requires Progress(text, chunks, gaps, remaining, maxChars)
    ensures remaining != ""
  {
  }
}
