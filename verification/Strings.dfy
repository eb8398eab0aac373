/** Splitting and trimming of text. */
module Strings {
  /** Cutting at every separator. */
  ghost function Split(s: string, sep: char): (r: seq<string>)
    ensures |r| >= 1
  {
    if s == "" then [""]
    else
      var k := |s| - 1;
      var r := Split(s[..k], sep);
      if s[k] == sep then r + [""] else ExtendLast(r, [s[k]])
  }

  ghost function ExtendLast(r: seq<string>, id: string): seq<string>
    requires |r| >= 1
  {
    r[..|r| - 1] + [r[|r| - 1] + id]
  }

  lemma ExtendTwice(r: seq<string>, a: string, b: string)
    requires |r| >= 1
    ensures ExtendLast(ExtendLast(r, a), b) == ExtendLast(r, a + b)
    ensures ExtendLast(r, "") == r
  {
    var x := r[|r| - 1];
    assert (x + a) + b == x + (a + b);
    assert x + "" == x;
  }

  lemma SplitNothing(sep: char)
    ensures Split("", sep) == [""]
  {
  }

  lemma SplitChar(s: string, c: char, sep: char)
    ensures Split(s + [c], sep) == if c == sep then Split(s, sep) + [""] else ExtendLast(Split(s, sep), [c])
  {
    assert (s + [c])[..|s|] == s;
  }

  lemma {:induction false} SplitAppend(s: string, id: string, sep: char)
    requires sep !in id
    ensures Split(s + id, sep) == ExtendLast(Split(s, sep), id)
    decreases |id|
  {
    hide Split, ExtendLast;
    if id == "" {
      assert s + id == s;
      ExtendTwice(Split(s, sep), "", "");
    } else {
      var k := |id| - 1;
      SplitAppend(s, id[..k], sep);
      assert id[k] in id;
      SplitChar(s + id[..k], id[k], sep);
      assert (s + id[..k]) + [id[k]] == s + id;
      ExtendTwice(Split(s, sep), id[..k], [id[k]]);
      assert id[..k] + [id[k]] == id;
    }
  }

  lemma SplitField(s: string, id: string, sep: char)
    requires sep !in id
    ensures Split(s + [sep] + id, sep) == Split(s, sep) + [id]
  {
    hide Split;
    SplitChar(s, sep, sep);
    SplitAppend(s + [sep], id, sep);
    assert "" + id == id;
  }

  /** No field contains the separator. */
  lemma {:induction false} SplitFields(s: string, sep: char)
    ensures forall i :: 0 <= i < |Split(s, sep)| ==> sep !in Split(s, sep)[i]
  {
    if s != "" { SplitFields(s[..|s| - 1], sep); }
  }

  /** A string copied into a buffer of `buflen` bytes, one of them for the end. */
  function Truncated(s: string, buflen: nat): string
    requires buflen >= 1
  {
    if |s| < buflen then s else s[..buflen - 1]
  }

  /** `t` is as much of the front of `s` as `n` characters allow. */
  ghost predicate IsHead(t: string, s: string, n: nat) {
    t <= s && |t| <= n && (|t| == n || t == s)
  }

  lemma TruncatedIsHead(s: string, buflen: nat)
    requires buflen >= 1
    ensures IsHead(Truncated(s, buflen), s, buflen - 1)
  {
  }

  // ---------- white space ----------

  /** White space as the Unicode property has it. */
  predicate IsSpace(c: char) {
    || ('\t' <= c <= '\r') || c == ' ' || c == '\U{85}' || c == '\U{A0}' || c == '\U{1680}'
    || ('\U{2000}' <= c <= '\U{200A}') || c == '\U{2028}' || c == '\U{2029}' || c == '\U{202F}' || c == '\U{205F}'
    || c == '\U{3000}'
  }

  function TrimLeft(s: string): string { if s != "" && IsSpace(s[0]) then TrimLeft(s[1..]) else s }

  function TrimRight(s: string): string {
    if s != "" && IsSpace(s[|s| - 1]) then TrimRight(s[..|s| - 1]) else s
  }

  function Trim(s: string): string { TrimRight(TrimLeft(s)) }

  ghost predicate Trimmed(t: string) {
    t != "" ==> !IsSpace(t[0]) && !IsSpace(t[|t| - 1])
  }

  lemma {:induction false} TrimLeftSlice(s: string) returns (i: nat)
    ensures i <= |s| && TrimLeft(s) == s[i..] && (i < |s| ==> !IsSpace(s[i]))
    ensures forall k :: 0 <= k < i ==> IsSpace(s[k])
  {
    i := 0;
    if s != "" && IsSpace(s[0]) {
      var j := TrimLeftSlice(s[1..]);
      i := j + 1;
      assert s[1..][j..] == s[i..];
      forall k | 0 <= k < i ensures IsSpace(s[k]) {
        if k > 0 { assert s[k] == s[1..][k - 1]; }
      }
    }
  }

  lemma {:induction false} TrimRightSlice(s: string) returns (j: nat)
    ensures j <= |s| && TrimRight(s) == s[..j] && (j > 0 ==> !IsSpace(s[j - 1]))
    ensures forall k :: j <= k < |s| ==> IsSpace(s[k])
  {
    j := |s|;
    if s != "" && IsSpace(s[|s| - 1]) {
      j := TrimRightSlice(s[..|s| - 1]);
      assert s[..|s| - 1][..j] == s[..j];
    }
  }

  /** Trimming keeps a stretch of the text that neither starts nor ends with
      white space, and drops only white space. */
  lemma TrimSlice(s: string) returns (i: nat, j: nat)
    ensures i <= j <= |s| && Trim(s) == s[i..j] && Trimmed(Trim(s))
    ensures forall k :: 0 <= k < i || j <= k < |s| ==> IsSpace(s[k])
  {
    i := TrimLeftSlice(s);
    var u := s[i..];
    var m := TrimRightSlice(u);
    j := i + m;
    assert u[..m] == s[i..j];
    forall k | j <= k < |s| ensures IsSpace(s[k]) { assert s[k] == u[k - i]; }
    if m > 0 {
      assert u[..m][0] == s[i];
      assert u[..m][m - 1] == u[m - 1];
    }
  }

  lemma TrimBlankBehind(t: string)
    requires Trimmed(t)
    ensures Trim(t + " ") == t
  {
    var u := t + " ";
    assert u[..|t|] == t && u[|t|] == ' ' && IsSpace(' ');
    if t == "" {
      assert u[1..] == "";
      assert TrimLeft(u) == TrimLeft(u[1..]) == "";
    } else {
      assert u[0] == t[0];
      assert TrimLeft(u) == u;
      assert TrimRight(u) == TrimRight(t) == t;
    }
  }
}
