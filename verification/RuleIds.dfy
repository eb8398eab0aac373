/** The bounded, comma-separated list of rule ids that goes into a ring event. */
module RuleIds {
  import opened Risk
  import opened Strings

  // ---------- meaning ----------

  ghost function NonEmptyIds(findings: seq<Finding>): seq<string> {
    if findings == [] then []
    else
      var k := |findings| - 1;
      NonEmptyIds(findings[..k]) + (if findings[k].ruleId == "" then [] else [findings[k].ruleId])
  }

  ghost function Joined(ids: seq<string>): string {
    if ids == [] then ""
    else
      var k := |ids| - 1;
      Joined(ids[..k]) + (if k == 0 then "" else ",") + ids[k]
  }

  /** How many leading ids fit: one byte beyond the terminator stays free. */
  ghost function Fit(ids: seq<string>, buflen: nat): (n: nat)
    ensures n <= |ids|
  {
    if ids == [] then 0
    else
      var k := |ids| - 1;
      var m := Fit(ids[..k], buflen);
      if m == k && |Joined(ids)| + 1 < buflen then k + 1 else m
  }

  ghost function RuleIdText(findings: seq<Finding>, primaryRule: string, buflen: nat): string
    requires buflen >= 1
  {
    var ids := NonEmptyIds(findings);
    if Fit(ids, buflen) > 0 then Joined(ids[..Fit(ids, buflen)]) else Truncated(primaryRule, buflen)
  }

  /** The list is that of the ids that are not empty, in order: `at` says where they
      come from. */
  lemma {:induction false} NonEmptyIdsAt(findings: seq<Finding>) returns (at: seq<int>)
    ensures |at| == |NonEmptyIds(findings)|
    ensures forall k :: 0 <= k < |at| ==> 0 <= at[k] < |findings| && NonEmptyIds(findings)[k] == findings[at[k]].ruleId
    ensures forall j, k :: 0 <= j < k < |at| ==> at[j] < at[k]
    ensures forall i :: 0 <= i < |findings| ==> (findings[i].ruleId != "" <==> i in at)
  {
    at := [];
    if findings != [] {
      var k := |findings| - 1;
      at := NonEmptyIdsAt(findings[..k]);
      if findings[k].ruleId != "" { at := at + [k]; }
    }
  }

  /** Without an id that fits, the text is what fits of the primary rule. */
  lemma TextWithoutIds(findings: seq<Finding>, primaryRule: string, buflen: nat)
    requires buflen >= 1
    requires var ids := NonEmptyIds(findings); ids == [] || |ids[0]| + 1 >= buflen
    ensures IsHead(RuleIdText(findings, primaryRule, buflen), primaryRule, buflen - 1)
  {
    var ids := NonEmptyIds(findings);
    TruncatedIsHead(primaryRule, buflen);
    if ids != [] {
      assert Joined(ids[..1]) == ids[0] by { assert ids[..1][..0] == []; }
      FitIsLongest(ids, buflen, 1);
    }
  }

  // ---------- a prefix, never a partial id ----------

  lemma {:induction false} JoinedGrows(ids: seq<string>, j: nat, k: nat)
    requires j <= k <= |ids|
    ensures |Joined(ids[..j])| <= |Joined(ids[..k])|
    decreases k
  {
    if j < k {
      assert ids[..k][..k - 1] == ids[..k - 1];
      JoinedGrows(ids, j, k - 1);
    }
  }

  /** A number of ids fits exactly if it is at most `Fit`, so the text holds the
      longest prefix that meets the size test. */
  lemma {:induction false} FitIsLongest(ids: seq<string>, buflen: nat, j: nat)
    requires 0 < j <= |ids|
    ensures |Joined(ids[..j])| + 1 < buflen <==> j <= Fit(ids, buflen)
    decreases |ids|
  {
    var k := |ids| - 1;
    assert ids[..k + 1] == ids;
    if j <= k {
      assert ids[..k][..j] == ids[..j];
      FitIsLongest(ids[..k], buflen, j);
      JoinedGrows(ids, j, |ids|);
    } else if k > 0 {
      FitIsLongest(ids[..k], buflen, k);
      assert ids[..k][..k] == ids[..k];
      JoinedGrows(ids, k, |ids|);
    }
  }

  /** Cutting the list gives the ids back. */
  lemma {:induction false} SplitJoined(ids: seq<string>)
    requires ids != [] && forall i :: 0 <= i < |ids| ==> ',' !in ids[i]
    ensures Split(Joined(ids), ',') == ids
  {
    hide Split;
    var k := |ids| - 1;
    assert ids == ids[..k] + [ids[k]];
    if k == 0 {
      SplitNothing(',');
      SplitAppend("", ids[0], ',');
      assert "" + ids[0] == ids[0];
      JoinedOneMore([], ids[0]);
      assert [] + [ids[0]] == ids;
    } else {
      SplitJoined(ids[..k]);
      SplitField(Joined(ids[..k]), ids[k], ',');
    }
  }

  /** For comma-free ids of which at least the first fits, cutting the text
      gives exactly the longest prefix that fits. */
  lemma TextSplitsToPrefix(findings: seq<Finding>, primaryRule: string, buflen: nat)
    requires buflen >= 1 && (forall f :: f in findings ==> ',' !in f.ruleId)
    requires var ids := NonEmptyIds(findings); ids != [] && |ids[0]| + 1 < buflen
    ensures var ids := NonEmptyIds(findings);
            Fit(ids, buflen) >= 1 && Split(RuleIdText(findings, primaryRule, buflen), ',') == ids[..Fit(ids, buflen)]
  {
    var ids := NonEmptyIds(findings);
    assert Joined(ids[..1]) == ids[0] by { assert ids[..1][..0] == []; }
    FitIsLongest(ids, buflen, 1);
    NonEmptyIdsFrom(findings);
    var n := Fit(ids, buflen);
    forall i | 0 <= i < n ensures ',' !in ids[i] { assert ids[i] in ids; }
    SplitJoined(ids[..n]);
  }

  /** A single finding is listed as it is. */
  lemma SingleId(f: Finding, primaryRule: string, buflen: nat)
    requires f.ruleId != "" && |f.ruleId| + 1 < buflen
    ensures RuleIdText([f], primaryRule, buflen) == f.ruleId
  {
    var id := f.ruleId;
    assert NonEmptyIds([f]) == [id] by {
      assert [f][..0] == [];
      assert [] + [id] == [id];
    }
    JoinedOneMore([], id);
    assert Joined([]) == "" && [] + [id] == [id] && "" + "" + id == id;
    assert [id][..1] == [id];
    FitIsLongest([id], buflen, 1);
  }

  lemma {:induction false} NonEmptyIdsFrom(findings: seq<Finding>)
    ensures forall id :: id in NonEmptyIds(findings) ==> id != "" && exists f :: f in findings && f.ruleId == id
  {
    if findings != [] {
      var k := |findings| - 1;
      NonEmptyIdsFrom(findings[..k]);
      assert findings[k] in findings;
    }
  }

  /** Adding one more id that no longer fits ends the list for good. */
  lemma {:induction false} NoRoomAnyMore(ids: seq<string>, k: nat, buflen: nat)
    requires k < |ids| && Fit(ids[..k], buflen) == k && |Joined(ids[..k + 1])| + 1 >= buflen
    ensures Fit(ids, buflen) == k
    decreases |ids|
  {
    var m := |ids| - 1;
    if k == m {
      assert ids[..k + 1] == ids;
    } else {
      assert ids[..m][..k] == ids[..k] && ids[..m][..k + 1] == ids[..k + 1];
      NoRoomAnyMore(ids[..m], k, buflen);
    }
  }

  // ---------- the buffer code ----------

  /** `buf` starts with the C string `s`. */
  ghost predicate HoldsText(buf: array<char>, s: string)
    reads buf
  {
    |s| < buf.Length && buf[..|s|] == s && buf[|s|] == '\0'
  }

  method CopyAt(buf: array<char>, used: nat, s: string)
    requires used + |s| < buf.Length
    modifies buf
    ensures buf[..used] == old(buf[..used]) && buf[used..used + |s|] == s
  {
    for i := 0 to |s|
      invariant buf[..used] == old(buf[..used])
      invariant buf[used..used + i] == s[..i]
    {
      buf[used + i] := s[i];
      assert buf[used..used + i + 1] == buf[used..used + i] + [s[i]];
    }
    assert s[..|s|] == s;
  }

  /** The loop state: `done` are the ids copied so far, all of them so far. */
  ghost predicate Copied(findings: seq<Finding>, i: nat, done: seq<string>, used: nat, buflen: nat) {
    && i <= |findings| && done == NonEmptyIds(findings[..i])
    && used == |Joined(done)| && used < buflen && Fit(done, buflen) == |done| && (used == 0 <==> done == [])
  }

  lemma SkipEmpty(findings: seq<Finding>, i: nat, done: seq<string>, used: nat, buflen: nat)
    requires Copied(findings, i, done, used, buflen) && i < |findings| && findings[i].ruleId == ""
    ensures Copied(findings, i + 1, done, used, buflen)
  {
    assert findings[..i + 1][..i] == findings[..i];
  }

  lemma OneMoreId(findings: seq<Finding>, i: nat)
    requires i < |findings| && findings[i].ruleId != ""
    ensures NonEmptyIds(findings[..i + 1]) == NonEmptyIds(findings[..i]) + [findings[i].ruleId]
  {
    assert findings[..i + 1][..i] == findings[..i];
  }

  lemma Stop(findings: seq<Finding>, i: nat, done: seq<string>, used: nat, buflen: nat)
    requires Copied(findings, i, done, used, buflen) && i < |findings| && findings[i].ruleId != ""
    requires used + |findings[i].ruleId| + (if used > 0 then 1 else 0) + 1 >= buflen
    ensures var ids := NonEmptyIds(findings); Fit(ids, buflen) == |done| && done <= ids
  {
    hide NonEmptyIds, Joined, Fit;
    var id, ids := findings[i].ruleId, NonEmptyIds(findings);
    OneMoreId(findings, i);
    NonEmptyIdsPrefix(findings, i + 1);
    JoinedOneMore(done, id);
    assert ids[..|done|] == done && ids[..|done| + 1] == done + [id];
    NoRoomAnyMore(ids, |done|, buflen);
  }

  lemma Advance(findings: seq<Finding>, i: nat, done: seq<string>, used: nat, buflen: nat)
    requires Copied(findings, i, done, used, buflen) && i < |findings| && findings[i].ruleId != ""
    requires used + |findings[i].ruleId| + (if used > 0 then 1 else 0) + 1 < buflen
    ensures var id := findings[i].ruleId;
            Copied(findings, i + 1, done + [id], used + |id| + (if used > 0 then 1 else 0), buflen)
    ensures var id := findings[i].ruleId;
            Joined(done + [id]) == Joined(done) + (if used > 0 then "," else "") + id
  {
    assert findings[..i + 1][..i] == findings[..i];
    JoinedOneMore(done, findings[i].ruleId);
    assert (done + [findings[i].ruleId])[..|done|] == done;
  }

  lemma JoinedOneMore(done: seq<string>, id: string)
    ensures Joined(done + [id]) == Joined(done) + (if done == [] then "" else ",") + id
  {
    assert (done + [id])[..|done|] == done;
  }

  lemma AllCopied(findings: seq<Finding>, done: seq<string>, used: nat, buflen: nat)
    requires Copied(findings, |findings|, done, used, buflen)
    ensures var ids := NonEmptyIds(findings); Fit(ids, buflen) == |done| && done <= ids
  {
    assert findings[..|findings|] == findings;
  }

  /** Writes one id behind the text, with a comma if there is text already. */
  method AppendId(buf: array<char>, used0: nat, id: string, ghost text: string) returns (used: nat)
    requires HoldsText(buf, text) && used0 == |text|
    requires used0 + |id| + (if used0 > 0 then 1 else 0) + 1 < buf.Length
    modifies buf
    ensures used == used0 + |id| + (if used0 > 0 then 1 else 0)
    ensures HoldsText(buf, text + (if used0 > 0 then "," else "") + id)
  {
    used := used0;
    if used > 0 {
      buf[used] := ',';
      used := used + 1;
    }
    ghost var front := text + (if used0 > 0 then "," else "");
    assert buf[..used] == front;
    CopyAt(buf, used, id);
    assert buf[..used + |id|] == buf[..used] + buf[used..used + |id|];
    used := used + |id|;
    buf[used] := '\0';
    assert buf[..used] == front + id;
  }

  /** Copies the ids that fit and always terminates the buffer inside it. */
  method BuildRuleIds(findings: seq<Finding>, primaryRule: string, buf: array<char>)
    requires buf.Length >= 1
    modifies buf
    ensures HoldsText(buf, RuleIdText(findings, primaryRule, buf.Length))
  {
    hide Copied, NonEmptyIds, Joined, Fit, HoldsText;
    var used := 0;
    buf[0] := '\0';
    ghost var ids, done := NonEmptyIds(findings), [];
    NothingCopied(findings, buf);
    var i := 0;
    while i < |findings|
      invariant i <= |findings| && used >= 0 && Copied(findings, i, done, used, buf.Length)
      invariant HoldsText(buf, Joined(done)) && used == |Joined(done)|
    {
      var id := findings[i].ruleId;
      if id == "" {
        SkipEmpty(findings, i, done, used, buf.Length);
        i := i + 1;
        continue;
      }
      var need := |id| + (if used > 0 then 1 else 0);
      if used + need + 1 >= buf.Length {
        Stop(findings, i, done, used, buf.Length);
        break;
      }
      Advance(findings, i, done, used, buf.Length);
      used := AppendId(buf, used, id, Joined(done));
      done := done + [id];
      i := i + 1;
    }
    if i == |findings| { AllCopied(findings, done, used, buf.Length); }
    assert ids[..|done|] == done;
    CopiedEmpty(findings, i, done, used, buf.Length);
    if used == 0 && primaryRule != "" {
      CopyText(buf, Truncated(primaryRule, buf.Length));
    }
  }

  method CopyText(buf: array<char>, s: string)
    requires |s| < buf.Length
    modifies buf
    ensures HoldsText(buf, s)
  {
    CopyAt(buf, 0, s);
    buf[|s|] := '\0';
    assert buf[..|s|] == s;
  }

  lemma NothingCopied(findings: seq<Finding>, buf: array<char>)
    requires buf.Length >= 1 && buf[0] == '\0'
    ensures Copied(findings, 0, [], 0, buf.Length) && HoldsText(buf, Joined([])) && Joined([]) == ""
  {
    assert findings[..0] == [];
  }

  lemma CopiedEmpty(findings: seq<Finding>, i: nat, done: seq<string>, used: nat, buflen: nat)
    requires Copied(findings, i, done, used, buflen)
    ensures used == 0 <==> done == []
    ensures done == [] ==> Joined(done) == ""
  {
  }

  lemma {:induction false} NonEmptyIdsPrefix(findings: seq<Finding>, k: nat)
    requires k <= |findings|
    ensures NonEmptyIds(findings[..k]) <= NonEmptyIds(findings)
    decreases |findings|
  {
    if k < |findings| {
      var m := |findings| - 1;
      assert findings[..m][..k] == findings[..k];
      NonEmptyIdsPrefix(findings[..m], k);
    } else {
      assert findings[..k] == findings;
    }
  }
}
