/** The static scan of SQL migration files: cutting a file into statements and
    reporting the dangerous ones. The patterns are a parameter. */
module Segmenter {
  import opened Strings

  datatype Finding = Finding(line: int, rule: string, snippet: string)

  /** The rule that a cleaned statement breaks, if any: "" for none. */
  type Patterns = string -> string

  // ---------- comments ----------

  predicate StartsComment(s: string) { |s| >= 2 && s[0] == '-' && s[1] == '-' }

  /** The line up to its first comment mark. */
  function Cut(line: string): string {
    if line == "" || StartsComment(line) then "" else [line[0]] + Cut(line[1..])
  }

  ghost function Body(lines: seq<string>): string {
    if lines == [] then "" else Body(lines[..|lines| - 1]) + Cut(lines[|lines| - 1]) + " "
  }

  ghost function Strip(s: string): string { Trim(Body(Split(s, '\n'))) }

  ghost predicate NoMark(s: string) {
    forall i :: 0 <= i < |s| - 1 ==> !(s[i] == '-' && s[i + 1] == '-')
  }

  lemma NoMarkCons(c: char, r: string)
    ensures NoMark([c] + r) <==> NoMark(r) && !(c == '-' && r != "" && r[0] == '-')
  {
    var s := [c] + r;
    assert s[1..] == r;
    if NoMark(s) {
      NoMarkSlice(s, 1, |s|);
      assert r != "" ==> !(s[0] == '-' && s[0 + 1] == '-');
    } else {
      var i :| 0 <= i < |s| - 1 && s[i] == '-' && s[i + 1] == '-';
      if i > 0 { assert r[i - 1] == '-' && r[i - 1 + 1] == '-'; }
    }
  }

  lemma {:induction false} CutIsPrefix(line: string)
    ensures Cut(line) <= line && NoMark(Cut(line))
    ensures NoMark(line) ==> Cut(line) == line
  {
    hide NoMark;
    if line == "" || StartsComment(line) {
      MarkAtStart(line);
    } else {
      CutIsPrefix(line[1..]);
      assert line == [line[0]] + line[1..];
      NoMarkCons(line[0], Cut(line[1..]));
      NoMarkCons(line[0], line[1..]);
    }
  }

  lemma MarkAtStart(line: string)
    ensures NoMark("") && (StartsComment(line) ==> !NoMark(line))
  {
    assert StartsComment(line) ==> line[0] == '-' && line[0 + 1] == '-';
  }

  lemma {:induction false} BodyIsClean(lines: seq<string>)
    requires forall i :: 0 <= i < |lines| ==> '\n' !in lines[i]
    ensures '\n' !in Body(lines) && NoMark(Body(lines))
    ensures Body(lines) != "" ==> Body(lines)[|Body(lines)| - 1] == ' '
  {
    if lines != [] {
      var k := |lines| - 1;
      BodyIsClean(lines[..k]);
      CutIsPrefix(lines[k]);
      NoMarkJoin(Body(lines[..k]), Cut(lines[k]));
      assert forall c :: c in Cut(lines[k]) ==> c in lines[k];
    }
  }

  lemma NoMarkJoin(a: string, b: string)
    requires NoMark(a) && NoMark(b) && (a != "" ==> a[|a| - 1] == ' ')
    ensures NoMark(a + b + " ")
  {
    var s := a + b + " ";
    forall i | 0 <= i < |s| - 1 ensures !(s[i] == '-' && s[i + 1] == '-') {
      if i + 1 < |a| {
        assert s[i] == a[i] && s[i + 1] == a[i + 1];
      } else if |a| <= i && i + 1 < |a| + |b| {
        assert s[i] == b[i - |a|] && s[i + 1] == b[i - |a| + 1];
      }
    }
  }

  lemma NoMarkSlice(s: string, i: nat, j: nat)
    requires NoMark(s) && i <= j <= |s|
    ensures NoMark(s[i..j])
  {
    var t := s[i..j];
    forall k | 0 <= k < |t| - 1 ensures !(t[k] == '-' && t[k + 1] == '-') {
      assert t[k] == s[i + k] && t[k + 1] == s[i + k + 1];
    }
  }

  /** The cleaned text is one line, holds no comment mark, and cleaning it again
      changes nothing. */
  lemma StripIsClean(s: string)
    ensures '\n' !in Strip(s) && NoMark(Strip(s)) && Trimmed(Strip(s))
    ensures Strip(Strip(s)) == Strip(s)
  {
    hide Split, Body, Trim;
    var lines := Split(s, '\n');
    SplitFields(s, '\n');
    BodyIsClean(lines);
    var i, j := TrimSlice(Body(lines));
    NoMarkSlice(Body(lines), i, j);
    var t := Strip(s);
    assert forall c :: c in Body(lines)[i..j] ==> c in Body(lines);
    OneLine(t);
    CutIsPrefix(t);
    TrimBlankBehind(t);
  }

  lemma OneLine(t: string)
    requires '\n' !in t
    ensures Split(t, '\n') == [t] && Body([t]) == Cut(t) + " "
  {
    SplitNothing('\n');
    SplitAppend("", t, '\n');
    assert "" + t == t;
    assert [t][..0] == [];
    assert "" + Cut(t) + " " == Cut(t) + " ";
  }

  // ---------- statements ----------

  predicate Skippable(line: string) {
    var t := Trim(line);
    t == "" || StartsComment(t)
  }

  ghost predicate EndsAt(lines: seq<string>, n: int)
    requires 1 <= n <= |lines|
  {
    ';' in lines[n - 1]
  }

  /** Lines `first` to `last`, counted from 1. */
  datatype Interval = Interval(first: int, last: int)

  ghost function Text(lines: seq<string>, first: int, last: int): string
    requires 1 <= first <= last <= |lines|
    decreases last
  {
    if first == last then lines[first - 1] else Text(lines, first, last - 1) + "\n" + lines[last - 1]
  }

  ghost predicate Inside(v: Interval, n: int) { v.first <= n <= v.last }

  /** One statement: it opens at a line that says something and closes at the
      first line with a semicolon, or at the end of the file. */
  ghost predicate IsStatement(lines: seq<string>, v: Interval) {
    && 1 <= v.first <= v.last <= |lines|
    && !Skippable(lines[v.first - 1])
    && (forall n :: v.first <= n < v.last ==> !EndsAt(lines, n))
    && (EndsAt(lines, v.last) || v.last == |lines|)
  }

  /** The file is cut into statements, in order and without overlap, and what
      is left over is blank or comment. */
  ghost predicate IsSegmentation(lines: seq<string>, segs: seq<Interval>) {
    && (forall i :: 0 <= i < |segs| ==> IsStatement(lines, segs[i]))
    && (forall i, j :: 0 <= i < j < |segs| ==> segs[i].last < segs[j].first)
    && (forall n :: 1 <= n <= |lines| ==> Covered(segs, n) || Skippable(lines[n - 1]))
  }

  ghost predicate Covered(segs: seq<Interval>, n: int) {
    exists i :: 0 <= i < |segs| && Inside(segs[i], n)
  }

  /** A line is in one statement at most. */
  lemma CoveredOnce(lines: seq<string>, segs: seq<Interval>, n: int, i: nat, j: nat)
    requires IsSegmentation(lines, segs) && i < |segs| && j < |segs| && Inside(segs[i], n) && Inside(segs[j], n)
    ensures i == j
  {
  }

  /** There is only one way to cut a file. */
  lemma SegmentationUnique(lines: seq<string>, a: seq<Interval>, b: seq<Interval>)
    requires IsSegmentation(lines, a) && IsSegmentation(lines, b)
    ensures a == b
  {
    if |a| <= |b| {
      PrefixAgrees(lines, a, b, |a|);
      NoMore(lines, a, b);
    } else {
      PrefixAgrees(lines, b, a, |b|);
      NoMore(lines, b, a);
    }
  }

  lemma StatementOpens(lines: seq<string>, v: Interval)
    requires IsStatement(lines, v)
    ensures 1 <= v.first <= v.last <= |lines| && !Skippable(lines[v.first - 1])
  {
  }

  /** Given equal statements so far, the next one opens no later in either. */
  lemma OpensNoLater(lines: seq<string>, a: seq<Interval>, b: seq<Interval>, k: nat)
    requires IsSegmentation(lines, a) && IsSegmentation(lines, b)
    requires k < |a| && k <= |b| && a[..k] == b[..k]
    ensures k < |b| && b[k].first <= a[k].first
  {
    hide IsStatement, Skippable;
    var n := a[k].first;
    StatementOpens(lines, a[k]);
    assert Covered(b, n);
    assert forall m :: 0 <= m < k ==> a[..k][m] == b[..k][m] && b[m] == a[m];
    var j :| 0 <= j < |b| && Inside(b[j], n);
    if k < |b| { StatementOpens(lines, b[k]); }
  }

  lemma {:induction false} PrefixAgrees(lines: seq<string>, a: seq<Interval>, b: seq<Interval>, k: nat)
    requires IsSegmentation(lines, a) && IsSegmentation(lines, b) && k <= |a| && k <= |b|
    ensures a[..k] == b[..k]
  {
    if k > 0 {
      var m := k - 1;
      PrefixAgrees(lines, a, b, m);
      OpensNoLater(lines, a, b, m);
      OpensNoLater(lines, b, a, m);
      ClosesAlike(lines, a[m], b[m]);
      assert a[..k] == a[..m] + [a[m]] && b[..k] == b[..m] + [b[m]];
    }
  }

  lemma ClosesAlike(lines: seq<string>, v: Interval, w: Interval)
    requires IsStatement(lines, v) && IsStatement(lines, w) && v.first == w.first
    ensures v == w
  {
  }

  lemma NoMore(lines: seq<string>, a: seq<Interval>, b: seq<Interval>)
    requires IsSegmentation(lines, a) && IsSegmentation(lines, b) && |a| <= |b| && a == b[..|a|]
    ensures a == b
  {
    if |a| < |b| {
      assert b[..|a|] == a[..|a|];
      OpensNoLater(lines, b, a, |a|);
    }
  }

  // ---------- what is reported ----------

  ghost function Cleaned(lines: seq<string>, v: Interval): string
    requires 1 <= v.first <= v.last <= |lines|
  {
    Strip(Trim(Text(lines, v.first, v.last)))
  }

  function Snippet(cleaned: string): string {
    if |cleaned| > 120 then cleaned[..117] + "..." else cleaned
  }

  ghost function Findings(lines: seq<string>, segs: seq<Interval>, patterns: Patterns): seq<Finding>
    requires forall i :: 0 <= i < |segs| ==> IsStatement(lines, segs[i])
  {
    if segs == [] then []
    else
      var v := segs[|segs| - 1];
      assert IsStatement(lines, v);
      var c := Cleaned(lines, v);
      Findings(lines, segs[..|segs| - 1], patterns) +
      (if patterns(c) == "" then [] else [Finding(v.first, patterns(c), Snippet(c))])
  }

  ghost predicate Rising(fs: seq<Finding>) {
    forall i, j :: 0 <= i < j < |fs| ==> fs[i].line < fs[j].line
  }

  lemma {:induction false} FindingsAreOpenings(lines: seq<string>, segs: seq<Interval>, patterns: Patterns)
    requires forall i :: 0 <= i < |segs| ==> IsStatement(lines, segs[i])
    ensures forall f :: f in Findings(lines, segs, patterns) ==> exists i :: 0 <= i < |segs| && segs[i].first == f.line
  {
    hide IsStatement, Cleaned, Snippet;
    if segs != [] {
      var k := |segs| - 1;
      FindingsAreOpenings(lines, segs[..k], patterns);
      forall f | f in Findings(lines, segs, patterns) ensures exists i :: 0 <= i < |segs| && segs[i].first == f.line {
        if f in Findings(lines, segs[..k], patterns) {
          var i :| 0 <= i < k && segs[..k][i].first == f.line;
          assert segs[i].first == f.line;
        } else {
          assert segs[k].first == f.line;
        }
      }
    }
  }

  /** Reported lines are openings of statements and strictly increase. */
  lemma {:induction false} FindingsRise(lines: seq<string>, segs: seq<Interval>, patterns: Patterns)
    requires forall i :: 0 <= i < |segs| ==> IsStatement(lines, segs[i])
    requires forall i, j :: 0 <= i < j < |segs| ==> segs[i].last < segs[j].first
    ensures Rising(Findings(lines, segs, patterns))
  {
    hide IsStatement, Cleaned, Snippet;
    if segs != [] {
      var k := |segs| - 1;
      FindingsRise(lines, segs[..k], patterns);
      FindingsAreOpenings(lines, segs[..k], patterns);
      var fs := Findings(lines, segs[..k], patterns);
      forall i | 0 <= i < |fs| ensures fs[i].line < segs[k].first {
        assert fs[i] in fs;
        var j :| 0 <= j < k && segs[..k][j].first == fs[i].line;
        StatementOpens(lines, segs[j]);
      }
    }
  }

  // ---------- the guards of the flush ----------

  /** `s` says something before any comment mark: a first character that is not
      white space, and not the start of a mark. */
  ghost predicate Says(s: string, i: nat) {
    && i < |s| && !IsSpace(s[i]) && !StartsComment(s[i..])
    && forall k :: 0 <= k < i ==> IsSpace(s[k])
  }

  lemma NotSkippableSays(line: string) returns (i: nat)
    requires !Skippable(line)
    ensures Says(line, i)
  {
    var a, b := TrimSlice(line);
    i := a;
    var t := Trim(line);
    assert t[0] == line[a];
    // a mark is not white space, so it would lie in the trimmed part
    assert a + 1 < |line| ==> line[a..][1] == line[a + 1];
    assert a + 1 < b ==> t[1] == line[a + 1];
    assert !IsSpace('-');
  }

  lemma SaysMore(s: string, i: nat, rest: string)
    requires Says(s, i) && (rest == "" || rest[0] == '\n')
    ensures Says(s + rest, i)
  {
    var u := s + rest;
    assert u[i..][0] == u[i] == s[i..][0];
    assert i + 1 < |u| ==> u[i..][1] == u[i + 1];
    assert i + 1 < |s| ==> s[i..][1] == s[i + 1];
  }

  lemma {:induction false} TextSays(lines: seq<string>, first: int, last: int, i: nat)
    requires 1 <= first <= last <= |lines| && Says(lines[first - 1], i)
    ensures Says(Text(lines, first, last), i)
    decreases last
  {
    if first < last {
      TextSays(lines, first, last - 1, i);
      SaysMore(Text(lines, first, last - 1), i, "\n" + lines[last - 1]);
      assert Text(lines, first, last) == Text(lines, first, last - 1) + ("\n" + lines[last - 1]);
    }
  }

  lemma SaysTrimmed(s: string, i: nat)
    requires Says(s, i)
    ensures Says(Trim(s), 0)
  {
    var a, b := TrimSlice(s);
    assert a == i;
    var t := Trim(s);
    assert t[0] == s[i];
    assert t[0..] == t;
    assert |t| > 1 ==> s[i..][1] == t[1];
  }

  /** Such a text is not emptied by the removal of comments. */
  lemma StripKeepsWords(s: string)
    requires Says(s, 0)
    ensures Strip(s) != ""
  {
    hide Split, Body, Trim;
    var lines := Split(s, '\n');
    FirstField(s);
    assert s[0..] == s;
    assert |lines[0]| > 1 ==> lines[0][1] == s[1];
    assert Cut(lines[0])[0] == s[0];
    BodyStarts(lines);
    var i, j := TrimSlice(Body(lines));
  }

  lemma {:induction false} BodyStarts(lines: seq<string>)
    requires lines != [] && Cut(lines[0]) != ""
    ensures Body(lines) != "" && Body(lines)[0] == Cut(lines[0])[0]
  {
    hide Cut;
    if |lines| > 1 {
      BodyStarts(lines[..|lines| - 1]);
    } else {
      assert lines[..0] == [];
      assert Body(lines) == "" + Cut(lines[0]) + " ";
    }
  }

  lemma {:induction false} FirstField(s: string)
    requires s != "" && s[0] != '\n'
    ensures Split(s, '\n')[0] != "" && Split(s, '\n')[0] <= s
    ensures |Split(s, '\n')| == 1 ==> Split(s, '\n')[0] == s
  {
    hide Split;
    var k := |s| - 1;
    assert s == s[..k] + [s[k]];
    SplitChar(s[..k], s[k], '\n');
    if k == 0 {
      SplitNothing('\n');
      assert s[..0] == "";
      assert "" + [s[0]] == [s[0]];
    } else {
      FirstField(s[..k]);
    }
  }

  /** None of the three guards of the flush ever fires for a statement. */
  lemma GuardsIdle(lines: seq<string>, first: int, last: int)
    requires 1 <= first <= last <= |lines| && !Skippable(lines[first - 1])
    ensures var raw := Trim(Text(lines, first, last));
            raw != "" && !StartsComment(raw) && Strip(raw) != ""
    ensures Text(lines, first, last) != ""
  {
    hide Skippable, Trim, Text, Strip;
    var i := NotSkippableSays(lines[first - 1]);
    TextSays(lines, first, last, i);
    var raw := Trim(Text(lines, first, last));
    SaysTrimmed(Text(lines, first, last), i);
    assert raw[0..] == raw;
    StripKeepsWords(raw);
  }

  // ---------- the line loop ----------

  /** The lines of the file so far: closed statements, and the opening line of
      the one being read, or 0. */
  ghost predicate Reading(lines: seq<string>, k: nat, segs: seq<Interval>, open: nat) {
    && k <= |lines|
    && (forall i :: 0 <= i < |segs| ==> IsStatement(lines, segs[i]) && segs[i].last <= k)
    && (forall i, j :: 0 <= i < j < |segs| ==> segs[i].last < segs[j].first)
    && (open > 0 ==>
        && open <= k && !Skippable(lines[open - 1])
        && (forall n :: open <= n <= k ==> !EndsAt(lines, n))
        && (forall i :: 0 <= i < |segs| ==> segs[i].last < open))
    && (forall n :: 1 <= n <= k && (open == 0 || n < open) ==> Covered(segs, n) || Skippable(lines[n - 1]))
  }

  lemma SkipLine(lines: seq<string>, k: nat, segs: seq<Interval>)
    requires Reading(lines, k, segs, 0) && k < |lines| && Skippable(lines[k])
    ensures Reading(lines, k + 1, segs, 0)
  {
  }

  lemma KeepLine(lines: seq<string>, k: nat, segs: seq<Interval>, open: nat)
    requires Reading(lines, k, segs, open) && k < |lines|
    requires open == 0 ==> !Skippable(lines[k])
    requires ';' !in lines[k]
    ensures Reading(lines, k + 1, segs, if open == 0 then k + 1 else open)
  {
  }

  lemma CoveredMore(segs: seq<Interval>, v: Interval, n: int)
    requires Covered(segs, n) || Inside(v, n)
    ensures Covered(segs + [v], n)
  {
    var s := segs + [v];
    if i :| 0 <= i < |segs| && Inside(segs[i], n) {
      assert Inside(s[i], n);
    } else {
      assert Inside(s[|segs|], n);
    }
  }

  lemma CloseStatement(lines: seq<string>, k: nat, segs: seq<Interval>, open: nat)
    requires Reading(lines, k, segs, open) && open > 0 && k == |lines|
    ensures Reading(lines, k, segs + [Interval(open, k)], 0)
  {
    forall n | 1 <= n <= k && (n < open ==> Covered(segs, n)) ensures Covered(segs + [Interval(open, k)], n) {
      CoveredMore(segs, Interval(open, k), n);
    }
  }

  lemma CloseAtSemicolon(lines: seq<string>, k: nat, segs: seq<Interval>, open: nat)
    requires Reading(lines, k, segs, open) && k < |lines| && ';' in lines[k]
    requires open == 0 ==> !Skippable(lines[k])
    ensures var v := Interval(if open == 0 then k + 1 else open, k + 1);
            Reading(lines, k + 1, segs + [v], 0) && IsStatement(lines, v)
  {
    var v := Interval(if open == 0 then k + 1 else open, k + 1);
    assert EndsAt(lines, k + 1);
    forall n | 1 <= n <= k + 1 && (n < v.first ==> Covered(segs, n)) ensures Covered(segs + [v], n) {
      CoveredMore(segs, v, n);
    }
  }

  lemma Done(lines: seq<string>, segs: seq<Interval>)
    requires Reading(lines, |lines|, segs, 0)
    ensures IsSegmentation(lines, segs)
  {
  }

  lemma FindingsStep(lines: seq<string>, segs: seq<Interval>, v: Interval, patterns: Patterns)
    requires forall i :: 0 <= i < |segs| ==> IsStatement(lines, segs[i])
    requires IsStatement(lines, v)
    ensures var c := Cleaned(lines, v);
            Findings(lines, segs + [v], patterns) ==
            Findings(lines, segs, patterns) +
            (if patterns(c) == "" then [] else [Finding(v.first, patterns(c), Snippet(c))])
  {
    assert (segs + [v])[..|segs|] == segs;
  }

  method StripComments(s: string) returns (r: string)
    ensures r == Strip(s)
  {
    var lines := SplitLines(s);
    var b := "";
    for i := 0 to |lines|
      invariant b == Body(lines[..i])
    {
      assert lines[..i + 1][..i] == lines[..i];
      b := b + Cut(lines[i]) + " ";
    }
    assert lines[..|lines|] == lines;
    r := Trim(b);
  }

  method SplitLines(s: string) returns (r: seq<string>)
    ensures r == Split(s, '\n')
  {
    hide Split;
    r := [""];
    SplitNothing('\n');
    assert s[..0] == "";
    for i := 0 to |s|
      invariant r == Split(s[..i], '\n')
    {
      SplitChar(s[..i], s[i], '\n');
      assert s[..i + 1] == s[..i] + [s[i]];
      if s[i] == '\n' {
        r := r + [""];
      } else {
        r := r[..|r| - 1] + [r[|r| - 1] + [s[i]]];
      }
    }
    assert s[..|s|] == s;
  }

  /** Checks one statement and reports it if a pattern matches. The guards are
      the source's; for the texts that occur none of them holds. */
  method Flush(stmt: string, stmtStart: int, lineNo: int, patterns: Patterns, findings0: seq<Finding>)
      returns (findings: seq<Finding>)
    ensures var raw := Trim(stmt); var c := Strip(raw); var ln := if stmtStart == 0 then lineNo else stmtStart;
            findings == findings0 +
              (if raw == "" || StartsComment(raw) || c == "" || patterns(c) == "" then []
               else [Finding(ln, patterns(c), Snippet(c))])
  {
    findings := findings0;
    var raw := Trim(stmt);
    if raw == "" || StartsComment(raw) { return; }
    var cleaned := StripComments(raw);
    if cleaned == "" { return; }
    var ln := stmtStart;
    if ln == 0 { ln := lineNo; }
    var rule := patterns(cleaned);
    if rule != "" {
      findings := findings + [Finding(ln, rule, Snippet(cleaned))];
    }
  }

  /** The variables of the scan after `k` lines. */
  ghost predicate ScanState(lines: seq<string>, k: nat, patterns: Patterns, stmt: string, stmtStart: int,
                            findings: seq<Finding>, segs: seq<Interval>, open: nat) {
    && Reading(lines, k, segs, open)
    && (if open == 0 then stmt == "" else stmt == Text(lines, open, k) && stmt != "" && stmtStart == open)
    && findings == Findings(lines, segs, patterns)
  }

  /** The flush of one whole statement, where no guard fires. */
  method FlushStatement(lines: seq<string>, stmt: string, stmtStart: int, lineNo: int, patterns: Patterns,
                        findings0: seq<Finding>, ghost segs: seq<Interval>, ghost v: Interval)
      returns (findings: seq<Finding>)
    requires forall i :: 0 <= i < |segs| ==> IsStatement(lines, segs[i])
    requires IsStatement(lines, v) && stmt == Text(lines, v.first, v.last) && stmtStart == v.first
    requires findings0 == Findings(lines, segs, patterns)
    ensures forall i :: 0 <= i < |segs + [v]| ==> IsStatement(lines, (segs + [v])[i])
    ensures findings == Findings(lines, segs + [v], patterns)
  {
    hide Text, Trim, Strip, Snippet, Findings, Skippable;
    GuardsIdle(lines, v.first, v.last);
    FindingsStep(lines, segs, v, patterns);
    findings := Flush(stmt, stmtStart, lineNo, patterns, findings0);
  }

  method AppendLine(stmt0: string, line: string) returns (stmt: string)
    ensures stmt == if stmt0 == "" then line else stmt0 + "\n" + line
  {
    stmt := stmt0;
    if |stmt| > 0 {
      stmt := stmt + "\n";
    }
    stmt := stmt + line;
    assert "" + line == line;
  }

  /** One line of the file. */
  method ReadLine(lines: seq<string>, k: nat, patterns: Patterns, stmt0: string, stmtStart0: int,
                  findings0: seq<Finding>, ghost segs0: seq<Interval>, ghost open0: nat)
      returns (stmt: string, stmtStart: int, findings: seq<Finding>, ghost segs: seq<Interval>, ghost open: nat)
    requires k < |lines| && ScanState(lines, k, patterns, stmt0, stmtStart0, findings0, segs0, open0)
    ensures ScanState(lines, k + 1, patterns, stmt, stmtStart, findings, segs, open)
  {
    hide Reading, Skippable, Text, Trim, Strip, Snippet, IsStatement, Findings;
    stmt, stmtStart, findings, segs, open := stmt0, stmtStart0, findings0, segs0, open0;
    ReadingKnown(lines, k, segs, open);
    var lineNo := k + 1;
    var line := lines[k];
    var skip := IsSkippable(line);
    if |stmt| == 0 && skip {
      SkipLine(lines, k, segs);
      return;
    }
    ghost var first := if open == 0 then k + 1 else open;
    if |stmt| == 0 {
      stmtStart := lineNo;
    }
    stmt := AppendLine(stmt, line);
    TextGrows(lines, first, k + 1);
    GuardsIdle(lines, first, k + 1);
    assert stmt == Text(lines, first, k + 1);
    if ';' in line {
      CloseAtSemicolon(lines, k, segs, open);
      findings := FlushStatement(lines, stmt, stmtStart, lineNo, patterns, findings, segs, Interval(first, k + 1));
      stmt := "";
      segs, open := segs + [Interval(first, k + 1)], 0;
    } else {
      KeepLine(lines, k, segs, open);
      open := first;
    }
  }

  /** Scans a file given by its lines: exactly the matching statements of its
      only segmentation are reported, each at its opening line. */
  method ScanFile(lines: seq<string>, patterns: Patterns) returns (findings: seq<Finding>, ghost segs: seq<Interval>)
    ensures IsSegmentation(lines, segs) && findings == Findings(lines, segs, patterns)
    ensures Rising(findings)
  {
    hide Reading, Skippable, Text, Trim, Strip, Snippet, IsStatement, Covered;
    findings, segs := [], [];
    var stmt, stmtStart := "", 0;
    ghost var open: nat := 0;
    NothingRead(lines);
    for k := 0 to |lines|
      invariant ScanState(lines, k, patterns, stmt, stmtStart, findings, segs, open)
    {
      stmt, stmtStart, findings, segs, open :=
        ReadLine(lines, k, patterns, stmt, stmtStart, findings, segs, open);
    }
    ReadingKnown(lines, |lines|, segs, open);
    if |stmt| > 0 {
      LastIsStatement(lines, segs, open);
      CloseStatement(lines, |lines|, segs, open);
      findings := FlushStatement(lines, stmt, stmtStart, |lines|, patterns, findings, segs, Interval(open, |lines|));
      segs := segs + [Interval(open, |lines|)];
    }
    Done(lines, segs);
    FindingsRise(lines, segs, patterns);
  }

  method IsSkippable(line: string) returns (b: bool)
    ensures b == Skippable(line)
  {
    var trim := Trim(line);
    b := trim == "" || StartsComment(trim);
  }

  /** The part of `Reading` that the loop itself looks at. */
  ghost predicate Known(lines: seq<string>, k: nat, segs: seq<Interval>, open: nat) {
    && k <= |lines| && open <= k
    && (open > 0 ==> !Skippable(lines[open - 1]))
    && (forall i :: 0 <= i < |segs| ==> IsStatement(lines, segs[i]))
  }

  lemma ReadingKnown(lines: seq<string>, k: nat, segs: seq<Interval>, open: nat)
    requires Reading(lines, k, segs, open)
    ensures Known(lines, k, segs, open)
  {
  }

  lemma LastIsStatement(lines: seq<string>, segs: seq<Interval>, open: nat)
    requires Reading(lines, |lines|, segs, open) && open > 0
    ensures IsStatement(lines, Interval(open, |lines|))
  {
  }

  lemma NothingRead(lines: seq<string>)
    ensures Reading(lines, 0, [], 0)
  {
  }

  lemma TextGrows(lines: seq<string>, first: int, last: int)
    requires 1 <= first <= last <= |lines|
    ensures Text(lines, first, last) ==
            if first == last then lines[first - 1] else Text(lines, first, last - 1) + "\n" + lines[last - 1]
  {
  }
}
