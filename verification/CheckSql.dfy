/** What the scan of an SQL file reports, in terms of the file itself: which
    characters the cleaning keeps, which lines open a statement, and which
    findings there are. */
module CheckSql {
  import opened Strings
  import opened Segmenter

  // ---------- the cleaned text, by position ----------

  ghost predicate MarkAt(s: string, i: int) {
    0 <= i && i + 1 < |s| && s[i] == '-' && s[i + 1] == '-'
  }

  /** A mark at `i` hides position `k` of the same line. */
  ghost predicate Hides(s: string, i: int, k: int)
    requires 0 <= i <= k < |s|
  {
    MarkAt(s, i) && '\n' !in s[i..k]
  }

  /** Position `k` is at or behind a comment mark on its own line. */
  ghost predicate Hidden(s: string, k: nat)
    requires k < |s|
  {
    exists i :: 0 <= i <= k && Hides(s, i, k)
  }

  /** What becomes of one character: a newline turns into a blank, what is hidden goes,
      and everything else stays. */
  ghost function Piece(s: string, k: nat): string
    requires k < |s|
  {
    if s[k] == '\n' then " " else if Hidden(s, k) then "" else [s[k]]
  }

  /** What is left of the first `k` characters. */
  ghost function Left(s: string, k: nat): string
    requires k <= |s|
  {
    if k == 0 then "" else Left(s, k - 1) + Piece(s, k - 1)
  }

  lemma {:induction false} CutAt(line: string) returns (m: nat)
    ensures m <= |line| && Cut(line) == line[..m] && (m < |line| ==> MarkAt(line, m))
    ensures forall i :: 0 <= i < m ==> !MarkAt(line, i)
  {
    m := 0;
    if line != "" && !StartsComment(line) {
      var tail := line[1..];
      var n := CutAt(tail);
      m := n + 1;
      assert forall i :: 0 < i ==> (MarkAt(line, i) <==> MarkAt(tail, i - 1));
    }
  }

  /** On a single line the first mark decides. */
  lemma {:induction false} LeftOfLine(line: string, k: nat)
    requires k <= |line| && '\n' !in line
    ensures Left(line, k) == if k <= |Cut(line)| then line[..k] else Cut(line)
  {
    if k > 0 {
      LeftOfLine(line, k - 1);
      var m := CutAt(line);
      assert m <= k - 1 ==> Hides(line, m, k - 1);
      assert line[..k] == line[..k - 1] + [line[k - 1]];
      assert line[k - 1] in line;
    }
  }

  lemma PieceInFront(a: string, b: string, k: nat)
    requires k < |a|
    ensures Piece(a + "\n" + b, k) == Piece(a, k)
  {
    var s := a + "\n" + b;
    forall i | 0 <= i <= k ensures Hides(s, i, k) <==> Hides(a, i, k) {
      assert s[i..k] == a[i..k];
      assert i + 1 < |a| ==> s[i + 1] == a[i + 1];
    }
  }

  lemma {:induction false} LeftOfFront(a: string, b: string, k: nat)
    requires k <= |a|
    ensures Left(a + "\n" + b, k) == Left(a, k)
  {
    hide Piece;
    if k > 0 {
      LeftOfFront(a, b, k - 1);
      PieceInFront(a, b, k - 1);
    }
  }

  /** A mark hides nothing behind a newline. */
  lemma NotBeyondNewline(s: string, i: nat, p: nat, k: nat)
    requires i <= p < k < |s| && s[p] == '\n'
    ensures !Hides(s, i, k)
  {
    assert s[i..k][p - i] == s[p];
  }

  lemma HidesBehind(a: string, b: string, i: nat, k: nat)
    requires i <= k < |b|
    ensures Hides(a + "\n" + b, |a| + 1 + i, |a| + 1 + k) <==> Hides(b, i, k)
  {
    var s, n := a + "\n" + b, |a| + 1;
    assert s[n..] == b;
    assert s[n + i..n + k] == b[i..k];
    assert s[n + i] == b[i] && (i + 1 < |b| ==> s[n + i + 1] == b[i + 1]);
  }

  lemma PieceBehind(a: string, b: string, k: nat)
    requires k < |b|
    ensures Piece(a + "\n" + b, |a| + 1 + k) == Piece(b, k)
  {
    hide Hides;
    var s, n := a + "\n" + b, |a| + 1;
    assert s[n + k] == b[k] && s[|a|] == '\n';
    if Hidden(s, n + k) {
      var i :| 0 <= i <= n + k && Hides(s, i, n + k);
      if i < n { NotBeyondNewline(s, i, |a|, n + k); } else { HidesBehind(a, b, i - n, k); }
    }
    if Hidden(b, k) {
      var i :| 0 <= i <= k && Hides(b, i, k);
      HidesBehind(a, b, i, k);
    }
  }

  lemma LeftStep(s: string, k: nat)
    requires k < |s|
    ensures Left(s, k + 1) == Left(s, k) + Piece(s, k)
    ensures s[k] == '\n' ==> Piece(s, k) == " "
    ensures Left(s, 0) == ""
  {
  }

  lemma Regroup(a: string, b: string, c: string)
    ensures a + b + c == a + (b + c) && a + "" == a
  {
  }

  lemma {:induction false} LeftBehind(a: string, b: string, k: nat)
    requires k <= |b|
    ensures Left(a + "\n" + b, |a| + 1 + k) == Left(a, |a|) + " " + Left(b, k)
  {
    hide Left, Piece;
    var s := a + "\n" + b;
    if k == 0 {
      LeftOfFront(a, b, |a|);
      LeftStep(s, |a|);
      NothingLeft(b);
      Regroup(Left(a, |a|) + " ", "", "");
    } else {
      LeftBehind(a, b, k - 1);
      PieceBehind(a, b, k - 1);
      LeftStep(s, |a| + k);
      LeftStep(b, k - 1);
      Regroup(Left(a, |a|) + " ", Left(b, k - 1), Piece(b, k - 1));
    }
  }

  lemma NothingLeft(s: string)
    ensures Left(s, 0) == ""
  {
  }

  lemma LastNewline(s: string) returns (m: nat)
    requires '\n' in s
    ensures m < |s| && s[m] == '\n' && '\n' !in s[m + 1..] && s == s[..m] + "\n" + s[m + 1..]
  {
    m := |s| - 1;
    while s[m] != '\n'
      invariant m < |s| && '\n' !in s[m + 1..]
      invariant exists i :: 0 <= i <= m && s[i] == '\n'
      decreases m
    {
      assert s[m..] == [s[m]] + s[m + 1..];
      m := m - 1;
    }
  }

  lemma {:induction false} BodyIsLeft(s: string)
    ensures Body(Split(s, '\n')) == Left(s, |s|) + " "
    decreases |s|
  {
    hide Split, Cut, Left;
    if '\n' in s {
      var m := LastNewline(s);
      var a, b := s[..m], s[m + 1..];
      BodyIsLeft(a);
      SplitField(a, b, '\n');
      var lines := Split(a, '\n');
      assert (lines + [b])[..|lines|] == lines;
      LeftBehind(a, b, |b|);
      WholeLineLeft(b);
    } else {
      OneLine(s);
      WholeLineLeft(s);
    }
  }

  lemma WholeLineLeft(line: string)
    requires '\n' !in line
    ensures Left(line, |line|) == Cut(line)
  {
    LeftOfLine(line, |line|);
    CutIsPrefix(line);
    assert line[..|line|] == line;
  }

  lemma {:induction false} TrimLeftBlank(u: string)
    ensures TrimLeft(u + " ") == if TrimLeft(u) == "" then "" else TrimLeft(u) + " "
  {
    var v := u + " ";
    if u == "" {
      assert v[1..] == "" && TrimLeft("") == "";
    } else if IsSpace(u[0]) {
      TrimLeftBlank(u[1..]);
      assert v[1..] == u[1..] + " ";
    }
  }

  lemma TrimBlank(u: string)
    ensures Trim(u + " ") == Trim(u)
  {
    TrimLeftBlank(u);
    var t := TrimLeft(u);
    assert (t + " ")[..|t|] == t;
  }

  /** The cleaned text is what is left, trimmed. */
  lemma StripIsLeft(s: string)
    ensures Strip(s) == Trim(Left(s, |s|))
  {
    hide Split, Body, Left, Trim;
    BodyIsLeft(s);
    TrimBlank(Left(s, |s|));
  }

  /** Without a mark only the newlines change. */
  lemma StripUnmarked(s: string)
    requires forall i :: !MarkAt(s, i)
    ensures Strip(s) == Trim(seq(|s|, k requires 0 <= k < |s| => if s[k] == '\n' then ' ' else s[k]))
  {
    hide Strip, Trim;
    StripIsLeft(s);
    var t := seq(|s|, k requires 0 <= k < |s| => if s[k] == '\n' then ' ' else s[k]);
    UnmarkedLeft(s, |s|, t);
    assert t[..|s|] == t;
  }

  lemma {:induction false} UnmarkedLeft(s: string, k: nat, t: string)
    requires k <= |s| == |t| && (forall i :: !MarkAt(s, i))
    requires forall i :: 0 <= i < |s| ==> t[i] == if s[i] == '\n' then ' ' else s[i]
    ensures Left(s, k) == t[..k]
  {
    if k > 0 {
      UnmarkedLeft(s, k - 1, t);
      assert t[..k] == t[..k - 1] + [t[k - 1]];
    }
  }

  /** The characters that are not white space. */
  ghost function Solid(t: string): string {
    if t == "" then "" else Solid(t[..|t| - 1]) + (if IsSpace(t[|t| - 1]) then "" else [t[|t| - 1]])
  }

  /** Those of the first `k` characters that are not white space and stand in front of
      the first mark of their line. */
  ghost function InFront(s: string, k: nat): string
    requires k <= |s|
  {
    if k == 0 then ""
    else InFront(s, k - 1) + (if IsSpace(s[k - 1]) || Hidden(s, k - 1) then "" else [s[k - 1]])
  }

  lemma {:induction false} SolidConcat(a: string, b: string)
    ensures Solid(a + b) == Solid(a) + Solid(b)
    decreases |b|
  {
    if b == "" {
      assert a + b == a;
      Regroup(Solid(a), "", "");
    } else {
      var k := |b| - 1;
      SolidConcat(a, b[..k]);
      hide Solid;
      SolidStep(a + b);
      SolidStep(b);
      assert (a + b)[..|a| + k] == a + b[..k];
      Regroup(Solid(a), Solid(b[..k]), if IsSpace(b[k]) then "" else [b[k]]);
    }
  }

  lemma SolidStep(t: string)
    requires t != ""
    ensures Solid(t) == Solid(t[..|t| - 1]) + (if IsSpace(t[|t| - 1]) then "" else [t[|t| - 1]])
  {
  }

  lemma {:induction false} SolidSpaces(t: string)
    requires forall k :: 0 <= k < |t| ==> IsSpace(t[k])
    ensures Solid(t) == ""
  {
    if t != "" { SolidSpaces(t[..|t| - 1]); }
  }

  lemma SolidTrim(s: string)
    ensures Solid(Trim(s)) == Solid(s)
  {
    hide Solid, Trim;
    var i, j := TrimSlice(s);
    SolidSpaces(s[..i]);
    SolidSpaces(s[j..]);
    SolidConcat(s[..i], s[i..j]);
    SolidConcat(s[..i] + s[i..j], s[j..]);
    assert s[..i] + s[i..j] + s[j..] == s;
  }

  lemma SolidOne(c: char)
    ensures Solid([c]) == if IsSpace(c) then "" else [c]
    ensures Solid("") == "" && IsSpace('\n') && IsSpace(' ')
  {
    assert [c][..0] == "";
  }

  lemma {:induction false} SolidLeft(s: string, k: nat)
    requires k <= |s|
    ensures Solid(Left(s, k)) == InFront(s, k)
  {
    hide Solid, Hidden;
    SolidOne(' ');
    if k > 0 {
      SolidLeft(s, k - 1);
      SolidOne(s[k - 1]);
      SolidConcat(Left(s, k - 1), Piece(s, k - 1));
    }
  }

  /** Nothing but white space and comments is lost, and nothing is added. */
  lemma StripKeeps(s: string)
    ensures Solid(Strip(s)) == InFront(s, |s|)
  {
    hide Strip, Trim, Left, Solid;
    StripIsLeft(s);
    SolidTrim(Left(s, |s|));
    SolidLeft(s, |s|);
  }

  // ---------- the statements, by line ----------

  /** The line is blank up to its end or to a mark. */
  ghost predicate SaysNothing(line: string) {
    exists i :: 0 <= i <= |line| && (i == |line| || MarkAt(line, i)) && forall k :: 0 <= k < i ==> IsSpace(line[k])
  }

  lemma SkippableMeans(line: string)
    ensures Skippable(line) <==> SaysNothing(line)
  {
    hide Trim;
    var i, j := TrimSlice(line);
    var t := Trim(line);
    var first := if i == j then |line| else i;
    assert !IsSpace('-') && |t| == j - i;
    assert forall k :: 0 <= k < first ==> IsSpace(line[k]);
    assert |t| >= 1 ==> t[0] == line[i] && !IsSpace(line[i]);
    assert |t| >= 2 ==> t[1] == line[i + 1];
    assert MarkAt(line, i) ==> i + 1 < j;
    assert Skippable(line) <==> first == |line| || MarkAt(line, first);
    forall n | 0 <= n <= |line| && (n == |line| || MarkAt(line, n)) && forall k :: 0 <= k < n ==> IsSpace(line[k])
      ensures n == first
    {
    }
    assert MarkAt(line, first) || first == |line| ==> SaysNothing(line) by {
      assert MarkAt(line, first) || !MarkAt(line, first);
    }
  }

  ghost predicate Empty(lines: seq<string>, n: int) { 1 <= n <= |lines| && SaysNothing(lines[n - 1]) }

  ghost predicate Semicolon(lines: seq<string>, n: int) { 1 <= n <= |lines| && ';' in lines[n - 1] }

  /** A statement may open behind line `n`: it has a semicolon, or there is none. */
  ghost predicate Break(lines: seq<string>, n: int) { n == 0 || Semicolon(lines, n) }

  /** Line `n` says something, and only lines that say nothing stand between it and a
      semicolon, or the beginning of the file. */
  ghost predicate Opens(lines: seq<string>, n: int) {
    && 1 <= n <= |lines| && !Empty(lines, n)
    && exists p :: 0 <= p < n && Break(lines, p) && forall m :: p < m < n ==> Empty(lines, m)
  }

  /** Line `m` is the first from `n` on with a semicolon, or the last of all. */
  ghost predicate Closes(lines: seq<string>, n: int, m: int) {
    && 1 <= n <= m <= |lines| && (Semicolon(lines, m) || m == |lines|)
    && forall k :: n <= k < m ==> !Semicolon(lines, k)
  }

  lemma StatementMeans(lines: seq<string>, v: Interval)
    ensures IsStatement(lines, v) <==>
            1 <= v.first <= |lines| && !Empty(lines, v.first) && Closes(lines, v.first, v.last)
  {
    hide Skippable, SaysNothing;
    if 1 <= v.first <= |lines| { SkippableMeans(lines[v.first - 1]); }
    if 1 <= v.first <= v.last <= |lines| {
      assert forall n :: v.first <= n <= v.last ==> (Semicolon(lines, n) <==> EndsAt(lines, n));
    }
  }

  lemma FirstOpens(lines: seq<string>, segs: seq<Interval>, i: nat)
    requires IsSegmentation(lines, segs) && i < |segs|
    ensures Opens(lines, segs[i].first)
  {
    hide SaysNothing, Skippable;
    var n := segs[i].first;
    assert IsStatement(lines, segs[i]);
    StatementMeans(lines, segs[i]);
    var p := if i == 0 then 0 else segs[i - 1].last;
    if i > 0 { assert IsStatement(lines, segs[i - 1]); }
    assert Break(lines, p);
    forall m | p < m < n ensures Empty(lines, m) {
      assert !Covered(segs, m);
      SkippableMeans(lines[m - 1]);
    }
  }

  lemma OpeningIsFirst(lines: seq<string>, segs: seq<Interval>, n: int) returns (i: nat)
    requires IsSegmentation(lines, segs) && Opens(lines, n)
    ensures i < |segs| && segs[i].first == n
  {
    hide SaysNothing, Skippable;
    SkippableMeans(lines[n - 1]);
    assert Covered(segs, n);
    i :| 0 <= i < |segs| && Inside(segs[i], n);
    var v := segs[i];
    assert IsStatement(lines, v);
    StatementMeans(lines, v);
    var p :| 0 <= p < n && Break(lines, p) && forall m :: p < m < n ==> Empty(lines, m);
    assert v.first < n ==> p < v.first;
  }

  /** A line opens a statement of the segmentation exactly if it says something and
      what stands before it, back to the last semicolon, says nothing. */
  lemma OpensIff(lines: seq<string>, segs: seq<Interval>, n: int)
    requires IsSegmentation(lines, segs)
    ensures Opens(lines, n) <==> exists i :: 0 <= i < |segs| && segs[i].first == n
  {
    hide IsSegmentation, Opens;
    if Opens(lines, n) { var i := OpeningIsFirst(lines, segs, n); }
    if i :| 0 <= i < |segs| && segs[i].first == n { FirstOpens(lines, segs, i); }
  }

  /** The text of a statement is its lines, one under the other. */
  lemma {:induction false} TextIsLines(lines: seq<string>, n: int, m: int)
    requires 1 <= n <= m <= |lines| && forall l :: l in lines ==> '\n' !in l
    ensures Split(Text(lines, n, m), '\n') == lines[n - 1..m]
    decreases m
  {
    hide Split;
    if n == m {
      OneLine(lines[n - 1]);
    } else {
      TextIsLines(lines, n, m - 1);
      SplitField(Text(lines, n, m - 1), lines[m - 1], '\n');
    }
  }

  /** `f` reports the statement on lines `f.line` to `m`. */
  ghost predicate FindingOf(lines: seq<string>, patterns: Patterns, f: Finding, m: int) {
    && Opens(lines, f.line) && 1 <= f.line <= m <= |lines| && Closes(lines, f.line, m)
    && var cleaned := Strip(Trim(Text(lines, f.line, m)));
       && f.rule == patterns(cleaned) && f.rule != ""
       && (if |cleaned| <= 120 then f.snippet == cleaned else f.snippet == cleaned[..117] + "...")
  }

  /** The statement on lines `n` to `m` is reported as `f`. */
  ghost predicate ReportedAs(lines: seq<string>, patterns: Patterns, v: Interval, f: Finding) {
    && 1 <= v.first <= v.last <= |lines| && f.line == v.first
    && var cleaned := Cleaned(lines, v);
       f.rule == patterns(cleaned) && f.rule != "" && f.snippet == Snippet(cleaned)
  }

  lemma {:induction false} InFindings(lines: seq<string>, segs: seq<Interval>, patterns: Patterns, f: Finding)
    requires forall i :: 0 <= i < |segs| ==> IsStatement(lines, segs[i])
    ensures f in Findings(lines, segs, patterns) <==>
            exists i :: 0 <= i < |segs| && ReportedAs(lines, patterns, segs[i], f)
  {
    hide IsStatement, Cleaned, Snippet, ReportedAs;
    if segs != [] {
      var k := |segs| - 1;
      InFindings(lines, segs[..k], patterns, f);
      hide Findings;
      InLonger(lines, segs[..k], segs[k], patterns, f);
      assert segs[..k] + [segs[k]] == segs;
    }
  }

  lemma InLonger(lines: seq<string>, front: seq<Interval>, v: Interval, patterns: Patterns, f: Finding)
    requires (forall i :: 0 <= i < |front| ==> IsStatement(lines, front[i])) && IsStatement(lines, v)
    requires f in Findings(lines, front, patterns) <==>
             exists i :: 0 <= i < |front| && ReportedAs(lines, patterns, front[i], f)
    ensures var segs := front + [v];
            && (forall i :: 0 <= i < |segs| ==> IsStatement(lines, segs[i]))
            && (f in Findings(lines, segs, patterns) <==>
                exists i :: 0 <= i < |segs| && ReportedAs(lines, patterns, segs[i], f))
  {
    hide IsStatement, Cleaned, Snippet, ReportedAs, Findings;
    var segs := front + [v];
    StatementOpens(lines, v);
    FindingsStep(lines, front, v, patterns);
    LastReported(lines, v, patterns, f);
    if i :| 0 <= i < |front| && ReportedAs(lines, patterns, front[i], f) { assert segs[i] == front[i]; }
    assert segs[|front|] == v;
  }

  lemma LastReported(lines: seq<string>, v: Interval, patterns: Patterns, f: Finding)
    requires IsStatement(lines, v)
    ensures var c := Cleaned(lines, v);
            ReportedAs(lines, patterns, v, f) <==> patterns(c) != "" && f == Finding(v.first, patterns(c), Snippet(c))
  {
    hide Cleaned, Snippet;
  }

  /** The findings of a scan, from the lines of the file alone: one for every line that
      opens a statement whose cleaned text matches a pattern. */
  lemma FindingIff(lines: seq<string>, segs: seq<Interval>, patterns: Patterns, f: Finding)
    requires IsSegmentation(lines, segs)
    ensures f in Findings(lines, segs, patterns) <==> exists m :: FindingOf(lines, patterns, f, m)
  {
    hide Strip, Trim, Text, IsStatement, Opens, Closes;
    InFindings(lines, segs, patterns, f);
    if f in Findings(lines, segs, patterns) {
      var i :| 0 <= i < |segs| && ReportedAs(lines, patterns, segs[i], f);
      assert IsStatement(lines, segs[i]);
      StatementMeans(lines, segs[i]);
      FirstOpens(lines, segs, i);
      assert FindingOf(lines, patterns, f, segs[i].last);
    }
    if m :| FindingOf(lines, patterns, f, m) {
      var i := OpeningIsFirst(lines, segs, f.line);
      assert IsStatement(lines, segs[i]);
      StatementMeans(lines, segs[i]);
      ClosesOnce(lines, f.line, m, segs[i].last);
      assert segs[i] == Interval(f.line, m);
      assert ReportedAs(lines, patterns, segs[i], f);
    }
  }

  lemma ClosesOnce(lines: seq<string>, n: int, m: int, m': int)
    requires Closes(lines, n, m) && Closes(lines, n, m')
    ensures m == m'
  {
  }
}
