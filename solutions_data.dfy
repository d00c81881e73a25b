/** The solution catalog and its pain-point splitter:
    `splitPainPoints(input)` is
    `input.split(/[\n;,，；]+/g).map(s => s.trim()).filter(Boolean)`. */
module SolutionsData {
  import opened Wrappers
  import opened Sequences
  import opened JsString

  /** The separators of the regular expression: line feed, semicolon,
      comma, full-width comma (U+FF0C) and full-width semicolon (U+FF1B). */
  predicate IsDelimiter(c: char) {
    c == '\n' || c == ';' || c == ',' || c == '，' || c == '；'
  }

  ghost predicate DelimiterFree(s: string) {
    forall i :: 0 <= i < |s| ==> !IsDelimiter(s[i])
  }

  /** A stretch of input that the splitter throws away: white space and
      delimiters only. */
  ghost predicate IsFiller(s: string) {
    forall i :: 0 <= i < |s| ==> IsSpace(s[i]) || IsDelimiter(s[i])
  }

  ghost predicate HasDelimiter(s: string) {
    exists i :: 0 <= i < |s| && IsDelimiter(s[i])
  }

  /** The length of the longest delimiter-free prefix of s. */
  function PieceLength(s: string): (n: nat)
    ensures n <= |s|
    ensures forall i :: 0 <= i < n ==> !IsDelimiter(s[i])
    ensures n < |s| ==> IsDelimiter(s[n])
  {
    if s == [] || IsDelimiter(s[0]) then 0 else 1 + PieceLength(s[1..])
  }

  /** The length of the run of delimiters at the start of s. */
  function RunLength(s: string): (n: nat)
    ensures n <= |s|
    ensures forall i :: 0 <= i < n ==> IsDelimiter(s[i])
    ensures n < |s| ==> !IsDelimiter(s[n])
  {
    if s == [] || !IsDelimiter(s[0]) then 0 else 1 + RunLength(s[1..])
  }

  /** `s.split(/[\n;,，；]+/g)`: the pieces between maximal runs of
      delimiters. A run at either end leaves an empty piece there, and
      "" splits into [""]. */
  function SplitOnDelimiters(s: string): (pieces: seq<string>)
    ensures |pieces| >= 1
    ensures forall k :: 0 <= k < |pieces| ==> DelimiterFree(pieces[k])
    decreases |s|
  {
    var n := PieceLength(s);
    if n == |s| then [s]
    else
      var rest := s[n..];
      [s[..n]] + SplitOnDelimiters(rest[RunLength(rest)..])
  }

  /** The pieces put back together with the delimiter runs between them:
      pieces[0] + runs[0] + pieces[1] + ... + runs[n-1] + pieces[n]. */
  function Rejoin(pieces: seq<string>, runs: seq<string>): string
    requires |pieces| == |runs| + 1
    decreases runs
  {
    if runs == [] then pieces[0] else pieces[0] + runs[0] + Rejoin(pieces[1..], runs[1..])
  }

  /** A non-empty stretch of delimiters only. */
  ghost predicate IsRun(r: string) {
    r != [] && forall i :: 0 <= i < |r| ==> IsDelimiter(r[i])
  }

  /** The split cuts s exactly at its maximal delimiter runs: s is the
      pieces, in order, with a non-empty run of delimiters between each two.
      The pieces hold no delimiter and the inner ones are non-empty, so no
      two runs touch and each run is a maximal one. */
  lemma {:induction false} SplitOnDelimitersRejoin(s: string) returns (runs: seq<string>)
    ensures |runs| + 1 == |SplitOnDelimiters(s)|
    ensures forall k :: 0 <= k < |runs| ==> IsRun(runs[k])
    ensures Rejoin(SplitOnDelimiters(s), runs) == s
    ensures forall k :: 0 < k < |SplitOnDelimiters(s)| - 1 ==> SplitOnDelimiters(s)[k] != []
    decreases |s|
  {
    InnerPiecesNonEmpty(s);
    var n := PieceLength(s);
    if n == |s| {
      runs := [];
    } else {
      var rest := s[n..];
      var m := RunLength(rest);
      var next := rest[m..];
      var rs := SplitOnDelimitersRejoin(next);
      var run := LeadingRun(rest);
      ThreeParts(s, n, m);
      SplitUnfold(s);
      RunsCons(run, rs);
      runs := [run] + rs;
      RejoinCons(s[..n], run, SplitOnDelimiters(next), rs);
    }
  }

  /** Only the first and the last piece of the split can be empty. */
  lemma {:induction false} InnerPiecesNonEmpty(s: string)
    ensures forall k :: 0 < k < |SplitOnDelimiters(s)| - 1 ==> SplitOnDelimiters(s)[k] != []
    decreases |s|
  {
    var n := PieceLength(s);
    if n < |s| {
      var rest := s[n..];
      var m := RunLength(rest);
      var next := rest[m..];
      InnerPiecesNonEmpty(next);
      assert next == [] || !IsDelimiter(next[0]) by {
        if m < |rest| { assert next[0] == rest[m]; }
      }
      FirstPieceNonEmpty(next);
      SplitUnfold(s);
      InnerCons(s[..n], SplitOnDelimiters(next));
    }
  }

  /** A piece put in front keeps the inner pieces non-empty when the old
      first piece, now an inner one, is. */
  lemma InnerCons(piece: string, tail: seq<string>)
    requires |tail| > 1 ==> tail[0] != []
    requires forall k :: 0 < k < |tail| - 1 ==> tail[k] != []
    ensures forall k :: 0 < k < |[piece] + tail| - 1 ==> ([piece] + tail)[k] != []
  {
    forall k | 0 < k < |[piece] + tail| - 1 ensures ([piece] + tail)[k] != [] {
      assert ([piece] + tail)[k] == tail[k - 1];
    }
  }

  /** What follows a maximal run starts a non-empty piece, unless it is
      the last piece. */
  lemma FirstPieceNonEmpty(t: string)
    requires t == [] || !IsDelimiter(t[0])
    ensures |SplitOnDelimiters(t)| > 1 ==> SplitOnDelimiters(t)[0] != []
  {
    if |SplitOnDelimiters(t)| > 1 {
      assert PieceLength(t) < |t|;
      assert PieceLength(t) >= 1;
    }
  }

  /** One step of the split: the first piece, then the split of what
      follows its delimiter run. */
  lemma SplitUnfold(s: string)
    requires PieceLength(s) < |s|
    ensures SplitOnDelimiters(s)
            == [s[..PieceLength(s)]] + SplitOnDelimiters(s[PieceLength(s)..][RunLength(s[PieceLength(s)..])..])
  {
  }

  lemma RunsCons(run: string, rs: seq<string>)
    requires IsRun(run) && forall k :: 0 <= k < |rs| ==> IsRun(rs[k])
    ensures forall k :: 0 <= k < |[run] + rs| ==> IsRun(([run] + rs)[k])
  {
  }

  /** A piece followed by a delimiter run goes in front of the rejoined rest. */
  lemma RejoinCons(piece: string, run: string, pieces: seq<string>, rs: seq<string>)
    requires |pieces| == |rs| + 1
    ensures Rejoin([piece] + pieces, [run] + rs) == piece + run + Rejoin(pieces, rs)
  {
    assert ([piece] + pieces)[1..] == pieces;
    assert ([run] + rs)[1..] == rs;
  }

  /** The delimiter run after a piece is non-empty. */
  lemma LeadingRun(rest: string) returns (run: string)
    requires rest != [] && IsDelimiter(rest[0])
    ensures run == rest[..RunLength(rest)] && IsRun(run)
  {
    run := rest[..RunLength(rest)];
    forall i | 0 <= i < |run| ensures IsDelimiter(run[i]) {
      assert run[i] == rest[i];
    }
  }

  /** `.map(s => s.trim())` */
  function TrimEach(pieces: seq<string>): (r: seq<string>)
    ensures |r| == |pieces|
    ensures forall k :: 0 <= k < |r| ==> r[k] == Trim(pieces[k])
  {
    if pieces == [] then [] else [Trim(pieces[0])] + TrimEach(pieces[1..])
  }

  /** `.filter(Boolean)`: only the empty string is falsy. */
  function DropEmpty(xs: seq<string>): (r: seq<string>)
    ensures |r| <= |xs|
    ensures forall k :: 0 <= k < |r| ==> r[k] != [] && r[k] in xs
    ensures forall x :: x in xs && x != [] ==> x in r
    ensures forall x :: multiset(r)[x] == if x == [] then 0 else multiset(xs)[x]
    ensures IsSubsequence(r, xs)
  {
    if xs == [] then []
    else
      var rest := DropEmpty(xs[1..]);
      assert xs == [xs[0]] + xs[1..];
      if xs[0] == [] then rest else [xs[0]] + rest
  }

  /** Every piece the splitter keeps is non-empty, trimmed and free of
      delimiters. */
  function SplitPainPoints(input: string): (r: seq<string>)
    ensures forall k :: 0 <= k < |r| ==> r[k] != []
    ensures forall k :: 0 <= k < |r| ==> IsTrimmed(r[k])
    ensures forall k :: 0 <= k < |r| ==> DelimiterFree(r[k])
  {
    var pieces := SplitOnDelimiters(input);
    TrimKeepsDelimiterFree(pieces);
    DropEmpty(TrimEach(pieces))
  }

  lemma TrimKeepsDelimiterFree(pieces: seq<string>)
    requires forall k :: 0 <= k < |pieces| ==> DelimiterFree(pieces[k])
    ensures forall k :: 0 <= k < |pieces| ==> DelimiterFree(Trim(pieces[k]))
  {
    forall k | 0 <= k < |pieces|
      ensures DelimiterFree(Trim(pieces[k]))
    {
      var lead, trail := TrimParts(pieces[k]);
      var t := Trim(pieces[k]);
      assert forall i :: 0 <= i < |t| ==> t[i] == pieces[k][|lead| + i];
    }
  }

  /** What the splitter keeps of one piece. */
  function Keep(piece: string): seq<string> {
    var t := Trim(piece);
    if t == [] then [] else [t]
  }

  /** The splitter, one piece at a time: a final piece ... */
  lemma SplitLast(s: string)
    requires PieceLength(s) == |s|
    ensures SplitPainPoints(s) == Keep(s)
  {
    assert SplitOnDelimiters(s) == [s];
    assert TrimEach([s]) == [Trim(s)];
  }

  /** ... and a piece followed by a run of delimiters. */
  lemma SplitStep(s: string)
    requires PieceLength(s) < |s|
    ensures var n := PieceLength(s);
            var rest := s[n..];
            SplitPainPoints(s) == Keep(s[..n]) + SplitPainPoints(rest[RunLength(rest)..])
  {
    var n := PieceLength(s);
    var rest := s[n..];
    var tail := SplitOnDelimiters(rest[RunLength(rest)..]);
    assert SplitOnDelimiters(s) == [s[..n]] + tail;
    var trimmed := TrimEach([s[..n]] + tail);
    assert trimmed[1..] == TrimEach(tail);
    assert trimmed == [Trim(s[..n])] + TrimEach(tail);
    assert trimmed[1..] == TrimEach(tail);
  }

  /** `pieces.join(sep)` for a one-character separator. */
  function Join(pieces: seq<string>, sep: char): (s: string)
    ensures pieces != [] && pieces[0] != [] ==> s != [] && s[0] == pieces[0][0]
  {
    if pieces == [] then []
    else if |pieces| == 1 then pieces[0]
    else pieces[0] + [sep] + Join(pieces[1..], sep)
  }

  /** Weave(gaps, items) is gaps[0] + items[0] + gaps[1] + ... + items[n-1] + gaps[n]. */
  function Weave(gaps: seq<string>, items: seq<string>): string
    requires |gaps| == |items| + 1
    decreases items
  {
    if items == [] then gaps[0] else gaps[0] + items[0] + Weave(gaps[1..], items[1..])
  }

  /** Gaps that hold only filler, and a delimiter wherever they separate
      two kept pieces. */
  ghost predicate ValidGaps(gaps: seq<string>) {
    && (forall k :: 0 <= k < |gaps| ==> IsFiller(gaps[k]))
    && (forall k :: 0 < k < |gaps| - 1 ==> HasDelimiter(gaps[k]))
  }

  /** Only white space and delimiters are lost, and the kept pieces appear in
      input order: the input is the result woven with filler gaps, and each
      gap between two kept pieces holds a delimiter. */
  lemma {:induction false} SplitPainPointsWeave(s: string) returns (gaps: seq<string>)
    ensures |gaps| == |SplitPainPoints(s)| + 1
    ensures s == Weave(gaps, SplitPainPoints(s))
    ensures ValidGaps(gaps)
    decreases |s|
  {
    var n := PieceLength(s);
    if n == |s| {
      gaps := WeaveLastPiece(s);
    } else {
      var rest := s[n..];
      var m := RunLength(rest);
      var next := rest[m..];
      var gs := SplitPainPointsWeave(next);
      ThreeParts(s, n, m);
      RunIsFiller(rest);
      SplitStep(s);
      gaps := WeavePiece(s[..n], rest[..m], gs, SplitPainPoints(next));
    }
  }

  lemma WeaveLastPiece(s: string) returns (gaps: seq<string>)
    requires PieceLength(s) == |s|
    ensures |gaps| == |SplitPainPoints(s)| + 1
    ensures s == Weave(gaps, SplitPainPoints(s))
    ensures ValidGaps(gaps)
  {
    var lead, trail := TrimParts(s);
    var t := Trim(s);
    SplitLast(s);
    if t == [] {
      gaps := [s];
      FillerOfSpace(s);
      assert SplitPainPoints(s) == [];
    } else {
      gaps := [lead, trail];
      FillerOfSpace(lead);
      FillerOfSpace(trail);
      assert Weave(gaps, [t]) == lead + t + Weave([trail], []);
      assert SplitPainPoints(s) == [t];
    }
  }

  /** Cutting s at n, and its remainder at m, splits it into three parts. */
  lemma ThreeParts(s: string, n: nat, m: nat)
    requires n + m <= |s|
    ensures s == s[..n] + s[n..][..m] + s[n..][m..]
  {
    var rest := s[n..];
    calc {
      s;
      s[..n] + rest;
      { assert rest == rest[..m] + rest[m..]; }
      s[..n] + (rest[..m] + rest[m..]);
    }
  }

  lemma RunIsFiller(s: string)
    ensures IsFiller(s[..RunLength(s)])
  {
    var run := s[..RunLength(s)];
    forall i | 0 <= i < |run| ensures IsDelimiter(run[i]) {
      assert run[i] == s[i];
    }
  }

  /** One piece and the delimiter run after it, in front of an already woven rest. */
  lemma WeavePiece(piece: string, run: string, gs: seq<string>, items: seq<string>)
    returns (gaps: seq<string>)
    requires |gs| == |items| + 1 && ValidGaps(gs)
    requires IsFiller(run) && run != [] && IsDelimiter(run[0])
    ensures |gaps| == |Keep(piece) + items| + 1
    ensures piece + run + Weave(gs, items) == Weave(gaps, Keep(piece) + items)
    ensures ValidGaps(gaps)
  {
    var lead, trail := TrimParts(piece);
    var t := Trim(piece);
    if t == [] {
      FillerOfSpace(piece);
      FillerConcat(piece, run);
      gaps := AbsorbGap(piece + run, gs, items);
      assert Keep(piece) + items == items;
    } else {
      FillerOfSpace(lead);
      FillerOfSpace(trail);
      FillerConcat(trail, run);
      assert HasDelimiter(trail + run) by {
        assert (trail + run)[|trail|] == run[0];
      }
      gaps := ConsItem(lead, t, trail + run, gs, items);
      assert Keep(piece) == [t];
      var w := Weave(gs, items);
      calc {
        Weave(gaps, [t] + items);
        lead + t + (trail + run) + w;
        { assert lead + t + (trail + run) == (lead + t + trail) + run; }
        (lead + t + trail) + run + w;
        piece + run + w;
      }
    }
  }

  /** A filler prefix merges into the first gap. */
  lemma AbsorbGap(x: string, gs: seq<string>, items: seq<string>) returns (gaps: seq<string>)
    requires |gs| == |items| + 1 && ValidGaps(gs) && IsFiller(x)
    ensures |gaps| == |gs|
    ensures Weave(gaps, items) == x + Weave(gs, items)
    ensures ValidGaps(gaps)
  {
    gaps := [x + gs[0]] + gs[1..];
    FillerConcat(x, gs[0]);
    WeaveExtendFirst(x, gs, items);
    assert forall k :: 0 < k < |gaps| ==> gaps[k] == gs[k];
  }

  /** A kept item, surrounded by a filler lead and a filler separator that
      holds a delimiter, is woven in front of the rest. */
  lemma ConsItem(lead: string, t: string, sep: string, gs: seq<string>, items: seq<string>)
    returns (gaps: seq<string>)
    requires |gs| == |items| + 1 && ValidGaps(gs)
    requires IsFiller(lead) && IsFiller(sep) && HasDelimiter(sep)
    ensures |gaps| == |items| + 2
    ensures Weave(gaps, [t] + items) == lead + t + sep + Weave(gs, items)
    ensures ValidGaps(gaps)
  {
    var g1 := sep + gs[0];
    gaps := [lead, g1] + gs[1..];
    FillerConcat(sep, gs[0]);
    assert HasDelimiter(g1) by {
      var i :| 0 <= i < |sep| && IsDelimiter(sep[i]);
      assert g1[i] == sep[i];
    }
    WeaveExtendFirst(sep, gs, items);
    assert gaps[1..] == [g1] + gs[1..];
    assert ([t] + items)[1..] == items;
    assert forall k :: 1 < k < |gaps| ==> gaps[k] == gs[k - 1];
  }

  lemma FillerOfSpace(s: string)
    requires AllSpace(s)
    ensures IsFiller(s)
  {
  }

  lemma FillerConcat(a: string, b: string)
    requires IsFiller(a) && IsFiller(b)
    ensures IsFiller(a + b)
  {
    forall i | 0 <= i < |a + b| ensures IsSpace((a + b)[i]) || IsDelimiter((a + b)[i]) {
      if i < |a| { assert (a + b)[i] == a[i]; } else { assert (a + b)[i] == b[i - |a|]; }
    }
  }

  /** Prepending to the first gap prepends to the woven string. */
  lemma WeaveExtendFirst(x: string, gaps: seq<string>, items: seq<string>)
    requires |gaps| == |items| + 1
    ensures Weave([x + gaps[0]] + gaps[1..], items) == x + Weave(gaps, items)
  {
    var g := [x + gaps[0]] + gaps[1..];
    if items != [] {
      assert g[1..] == gaps[1..];
    }
  }

  /** Input made of white space and delimiters only (the empty input among
      it) yields no pain points. */
  lemma {:induction false} FillerYieldsNothing(s: string)
    requires IsFiller(s)
    ensures SplitPainPoints(s) == []
    decreases |s|
  {
    var n := PieceLength(s);
    FillerPieceIsBlank(s);
    if n == |s| {
      SplitLast(s);
    } else {
      SplitStep(s);
      var next := FillerAfterRun(s);
      FillerYieldsNothing(next);
    }
  }

  /** The first piece of filler is all white space, so it is dropped. */
  lemma FillerPieceIsBlank(s: string)
    requires IsFiller(s)
    ensures Keep(s[..PieceLength(s)]) == []
  {
    var n := PieceLength(s);
    forall i | 0 <= i < n ensures IsSpace(s[..n][i]) {
      assert !IsDelimiter(s[i]);
    }
  }

  /** What follows the first piece and its delimiter run is filler again. */
  lemma FillerAfterRun(s: string) returns (next: string)
    requires IsFiller(s) && PieceLength(s) < |s|
    ensures var rest := s[PieceLength(s)..]; next == rest[RunLength(rest)..]
    ensures IsFiller(next) && |next| < |s|
  {
    var n := PieceLength(s);
    var rest := s[n..];
    var m := RunLength(rest);
    next := rest[m..];
    assert next == s[n + m..];
    FillerSuffix(s, n + m);
  }

  lemma FillerSuffix(s: string, k: nat)
    requires IsFiller(s) && k <= |s|
    ensures IsFiller(s[k..])
  {
    forall i | 0 <= i < |s| - k ensures IsSpace(s[k..][i]) || IsDelimiter(s[k..][i]) {
      assert s[k..][i] == s[k + i];
    }
  }

  /** Non-blank input without any delimiter is kept whole, trimmed. */
  lemma SinglePiece(s: string)
    requires DelimiterFree(s) && !AllSpace(s)
    ensures SplitPainPoints(s) == [Trim(s)]
  {
    assert PieceLength(s) == |s|;
    SplitLast(s);
  }

  /** A pain point as the splitter produces it: non-empty, trimmed and
      free of delimiters. */
  ghost predicate IsCleanPainPoint(x: string) {
    x != [] && IsTrimmed(x) && DelimiterFree(x)
  }

  /** Round trip: joining clean pain points with any delimiter and splitting
      the result gives them back. */
  lemma {:induction false} SplitJoinRoundTrip(items: seq<string>, sep: char)
    requires IsDelimiter(sep)
    requires forall k :: 0 <= k < |items| ==> IsCleanPainPoint(items[k])
    ensures SplitPainPoints(Join(items, sep)) == items
    decreases |items|
  {
    if items == [] {
      assert Join(items, sep) == [];
      SplitLast([]);
    } else if |items| == 1 {
      SplitClean(items[0]);
    } else {
      var rest := items[1..];
      assert items == [items[0]] + rest;
      assert forall k :: 0 <= k < |rest| ==> rest[k] == items[k + 1];
      SplitJoinRoundTrip(rest, sep);
      SplitJoinStep(items[0], rest, sep);
    }
  }

  /** Splitting a join peels off its first item. */
  lemma SplitJoinStep(x: string, rest: seq<string>, sep: char)
    requires IsDelimiter(sep) && IsCleanPainPoint(x)
    requires rest != [] && IsCleanPainPoint(rest[0])
    ensures SplitPainPoints(Join([x] + rest, sep)) == [x] + SplitPainPoints(Join(rest, sep))
  {
    var tail := Join(rest, sep);
    assert ([x] + rest)[1..] == rest;
    assert Join([x] + rest, sep) == x + [sep] + tail;
    SplitItemBeforeTail(x, sep, tail);
  }

  /** A single clean pain point splits into itself. */
  lemma SplitClean(x: string)
    requires IsCleanPainPoint(x)
    ensures SplitPainPoints(x) == [x]
  {
    assert PieceLength(x) == |x|;
    SplitLast(x);
    TrimOfTrimmed(x);
  }

  /** One clean item, a delimiter and a tail that starts with neither white
      space nor a delimiter split into the item followed by the tail's pieces. */
  lemma SplitItemBeforeTail(x: string, sep: char, tail: string)
    requires IsDelimiter(sep)
    requires x != [] && IsTrimmed(x) && DelimiterFree(x)
    requires tail != [] && !IsDelimiter(tail[0])
    ensures SplitPainPoints(x + [sep] + tail) == [x] + SplitPainPoints(tail)
  {
    var s := x + [sep] + tail;
    assert s == x + ([sep] + tail);
    PieceLengthOfPrefix(x, [sep] + tail);
    var rest := s[|x|..];
    assert rest == [sep] + tail;
    assert RunLength(rest) == 1;
    assert rest[1..] == tail;
    assert s[..|x|] == x;
    SplitStep(s);
    TrimOfTrimmed(x);
  }

  lemma {:induction false} PieceLengthOfPrefix(x: string, rest: string)
    requires DelimiterFree(x)
    requires rest != [] && IsDelimiter(rest[0])
    ensures PieceLength(x + rest) == |x|
    decreases |x|
  {
    if x != [] {
      assert (x + rest)[1..] == x[1..] + rest;
      PieceLengthOfPrefix(x[1..], rest);
    }
  }

  datatype SourceType = PptOrPdf

  /** A catalog entry: one packaged solution and the pain points it addresses. */
  datatype SystexSolution = SystexSolution(
    id: string,
    title: string,
    summary: string,
    painPoints: seq<string>,
    valuePitch: string,
    ownerUnit: string,
    sourceType: SourceType,
    sourceFileName: string,
    sourceLink: Option<string>)

  /** The pain points of the Hybrid RAG entry, as one comma-separated string. */
  const HybridRagPainPoints: string := "資料分散,查詢依賴IT,決策速度慢,跨部門資訊不透明,知識無法重用"

  /** `SYSTEX_SOLUTIONS` (the summary and value pitch shortened). */
  const SystexSolutions: seq<SystexSolution> := [
    SystexSolution(
      "systex-hybrid-rag-ai-data-copilot",
      "AI數據幕僚（SYSTEX Hybrid RAG 平台）",
      "AI數據幕僚（SYSTEX Hybrid RAG 平台）是一套專為企業高階管理層與部門主管打造的 AI 決策輔助平台。",
      SplitPainPoints(HybridRagPainPoints),
      "我們協助您打造一位真正能「隨問即答」的 AI 數據幕僚。",
      "智慧應用中心 / AI 數據平台事業部",
      PptOrPdf,
      "AI數據幕僚_SYSTEX_Hybrid_RAG平台_客戶版_20250720.pdf",
      Some(""))
  ]

  /** The five pain points the Hybrid RAG entry lists. */
  const HybridRagItems: seq<string> := ["資料分散", "查詢依賴IT", "決策速度慢", "跨部門資訊不透明", "知識無法重用"]

  /** The catalog's pain points are exactly the five comma-separated items, in order. */
  lemma HybridRagPainPointsSplit()
    ensures SystexSolutions[0].painPoints == HybridRagItems
  {
    HybridRagJoin(HybridRagPainPoints);
    HybridRagItemsClean();
    SplitJoinRoundTrip(HybridRagItems, ',');
  }

  /** The catalog string is the five items joined with commas. */
  lemma HybridRagJoin(s: string)
    requires s == HybridRagPainPoints
    ensures Join(HybridRagItems, ',') == s
  {
    HybridRagPieces(s);
    JoinOfCuts(s, HybridRagItems, ',', 4, 11, 17, 26);
  }

  lemma HybridRagItemsClean()
    ensures forall k :: 0 <= k < |HybridRagItems| ==> IsCleanPainPoint(HybridRagItems[k])
  {
  }

  /** A string cut at four separator positions is the join of the five pieces between them. */
  lemma JoinOfCuts(s: string, xs: seq<string>, sep: char, c1: nat, c2: nat, c3: nat, c4: nat)
    requires c1 < c2 < c3 < c4 < |s|
    requires s[c1] == sep && s[c2] == sep && s[c3] == sep && s[c4] == sep
    requires xs == [s[..c1], s[c1 + 1..c2], s[c2 + 1..c3], s[c3 + 1..c4], s[c4 + 1..]]
    ensures Join(xs, sep) == s
  {
    var t4 := s[c4 + 1..];
    var t3 := s[c3 + 1..];
    var t2 := s[c2 + 1..];
    var t1 := s[c1 + 1..];
    assert t3 == xs[3] + [sep] + t4;
    assert t2 == xs[2] + [sep] + t3;
    assert t1 == xs[1] + [sep] + t2;
    assert s == xs[0] + [sep] + t1;
    JoinFive(xs, sep);
  }

  lemma JoinFive(xs: seq<string>, sep: char)
    requires |xs| == 5
    ensures Join(xs, sep) == xs[0] + [sep] + (xs[1] + [sep] + (xs[2] + [sep] + (xs[3] + [sep] + xs[4])))
  {
    assert Join(xs[4..], sep) == xs[4];
    assert Join(xs[3..], sep) == xs[3] + [sep] + xs[4] by { assert xs[3..][1..] == xs[4..]; }
    assert Join(xs[2..], sep) == xs[2] + [sep] + Join(xs[3..], sep) by { assert xs[2..][1..] == xs[3..]; }
    assert Join(xs[1..], sep) == xs[1] + [sep] + Join(xs[2..], sep) by { assert xs[1..][1..] == xs[2..]; }
  }

  lemma HybridRagPieces(s: string)
    requires s == HybridRagPainPoints
    ensures HybridRagItems == [s[..4], s[5..11], s[12..17], s[18..26], s[27..]]
    ensures s[4] == ',' && s[11] == ',' && s[17] == ',' && s[26] == ',' && |s| == 33
  {
    HybridRagHeadPieces(s);
    HybridRagTailPieces(s);
    FiveItems(HybridRagItems, s[..4], s[5..11], s[12..17], s[18..26], s[27..]);
  }

  lemma HybridRagHeadPieces(s: string)
    requires s == HybridRagPainPoints
    ensures s[..4] == HybridRagItems[0] && s[5..11] == HybridRagItems[1] && s[12..17] == HybridRagItems[2]
  {
    SliceIs(s, 0, HybridRagItems[0]);
    assert s[0..4] == s[..4];
    SliceIs(s, 5, HybridRagItems[1]);
    SliceIs(s, 12, HybridRagItems[2]);
  }

  lemma HybridRagTailPieces(s: string)
    requires s == HybridRagPainPoints
    ensures s[18..26] == HybridRagItems[3] && s[27..] == HybridRagItems[4]
  {
    SliceIs(s, 18, HybridRagItems[3]);
    SliceIs(s, 27, HybridRagItems[4]);
  }

  lemma FiveItems(xs: seq<string>, p0: string, p1: string, p2: string, p3: string, p4: string)
    requires |xs| == 5
    requires xs[0] == p0 && xs[1] == p1 && xs[2] == p2 && xs[3] == p3 && xs[4] == p4
    ensures xs == [p0, p1, p2, p3, p4]
  {
  }

  lemma SliceIs(s: string, a: nat, item: string)
    requires a + |item| <= |s|
    requires forall i :: 0 <= i < |item| ==> s[a + i] == item[i]
    ensures s[a..a + |item|] == item
  {
  }

}
