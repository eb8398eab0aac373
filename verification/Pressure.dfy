/** The runtime pressure score: five factors, their capped sum, and the ordered
    explanation. Ages, lags and ratios are exact reals. */
module Pressure {
  import WalCache

  datatype Signals = Signals(
    longTransactions: int, idleInTransaction: int, oldestAge: real,
    blockedSessions: int, blockingSessions: int, maxChainDepth: int, maxDescendants: int, maxLockWait: real,
    replicationLag: real, walBytesPerSec: real,
    usedConnections: int, maxConnections: int, reservedConnections: int, activeQueries: int)

  datatype Limits = Limits(longTransaction: int, lagWarn: int, lagCritical: int, wal: WalCache.Thresholds)

  // ---------- the factors ----------

  function Transactions(long: int, idle: int, oldest: real, limit: int): int {
    (if long > 0 then long * 12 else 0) + (if idle > 0 then idle * 6 else 0) +
    (if limit > 0 && oldest >= limit as real * 2.0 then 15 else if limit > 0 && oldest >= limit as real then 5 else 0)
  }

  function Locks(blocked: int, blocking: int, depth: int, descendants: int, wait: real): int {
    LockSessions(blocked, blocking) + LockChains(depth, descendants, wait)
  }

  function LockSessions(blocked: int, blocking: int): int {
    (if blocked >= 1 then 8 else 0) + (if blocked >= 5 then 15 else 0) + (if blocked >= 20 then 25 else 0) +
    (if blocking > 0 then (if blocking < 5 then blocking else 5) * 4 else 0)
  }

  function LockChains(depth: int, descendants: int, wait: real): int {
    (if descendants >= 50 then 25 else if descendants >= 20 then 15 else if descendants >= 5 then 8
     else if descendants >= 2 then 4 else 0) +
    (if depth >= 5 then 12 else if depth >= 3 then 8 else if depth >= 2 then 3 else 0) +
    (if wait >= 30.0 then 8 else if wait >= 5.0 then 4 else 0)
  }

  function Replication(lag: real, warn: int, critical: int): int {
    if lag <= 0.0 then 0
    else if critical > 0 && lag >= critical as real then 35
    else if warn > 0 && lag >= warn as real then 18
    else 0
  }

  function Usable(max: int, reserved: int): int { if max - reserved < 1 then 1 else max - reserved }

  function Connections(used: int, max: int, reserved: int, idle: int, active: int): int {
    if max <= 0 then 0
    else
      var usable := Usable(max, reserved);
      var ratio := used as real / usable as real;
      (if ratio >= 0.95 then 25 else if ratio >= 0.85 then 15 else if ratio >= 0.70 then 8 else 0) +
      (if idle > 0 then (if idle < 8 then idle else 8) * 2 else 0) +
      (if active > 0 && active >= usable / 2 then 5 else 0)
  }

  function Combine5(tx: int, locks: int, repl: int, wal: int, conn: int): int {
    var score := tx + locks + repl + wal + conn;
    if score < 0 then 0 else if score > 100 then 100 else score
  }

  // ---------- the sum ----------

  datatype Contrib = Contrib(name: string, contrib: int)

  function Factors(s: Signals, l: Limits): seq<Contrib> {
    [Contrib("transactions", Transactions(s.longTransactions, s.idleInTransaction, s.oldestAge, l.longTransaction)),
     Contrib("locks", Locks(s.blockedSessions, s.blockingSessions, s.maxChainDepth, s.maxDescendants, s.maxLockWait)),
     Contrib("replication_lag", Replication(s.replicationLag, l.lagWarn, l.lagCritical)),
     Contrib("wal", WalCache.Score(s.walBytesPerSec, l.wal)),
     Contrib("connection_pressure", Connections(s.usedConnections, s.maxConnections, s.reservedConnections,
                                                s.idleInTransaction, s.activeQueries))]
  }

  ghost function Sum(parts: seq<Contrib>): int {
    if parts == [] then 0 else Sum(parts[..|parts| - 1]) + parts[|parts| - 1].contrib
  }

  ghost predicate NonNegative(parts: seq<Contrib>) { forall p :: p in parts ==> p.contrib >= 0 }

  /** The capped total. */
  ghost function PressureScore(s: Signals, l: Limits): int {
    var total := Sum(Factors(s, l));
    if total < 100 then total else 100
  }

  lemma FactorsNonNegative(s: Signals, l: Limits)
    ensures NonNegative(Factors(s, l))
  {
  }

  /** The signals that count as worse when they grow; configuration stays. */
  ghost predicate NoWorse(a: Signals, b: Signals) {
    && a.longTransactions <= b.longTransactions && a.idleInTransaction <= b.idleInTransaction
    && a.oldestAge <= b.oldestAge
    && a.blockedSessions <= b.blockedSessions && a.blockingSessions <= b.blockingSessions
    && a.maxChainDepth <= b.maxChainDepth && a.maxDescendants <= b.maxDescendants && a.maxLockWait <= b.maxLockWait
    && a.replicationLag <= b.replicationLag && a.walBytesPerSec <= b.walBytesPerSec
    && a.usedConnections <= b.usedConnections && a.activeQueries <= b.activeQueries
    && a.maxConnections == b.maxConnections && a.reservedConnections == b.reservedConnections
  }

  lemma RatioMonotone(a: int, b: int, usable: int)
    requires a <= b && usable >= 1
    ensures a as real / usable as real <= b as real / usable as real
  {
  }

  lemma LocksMonotone(a: Signals, b: Signals)
    requires NoWorse(a, b)
    ensures Locks(a.blockedSessions, a.blockingSessions, a.maxChainDepth, a.maxDescendants, a.maxLockWait) <=
            Locks(b.blockedSessions, b.blockingSessions, b.maxChainDepth, b.maxDescendants, b.maxLockWait)
  {
    hide LockSessions, LockChains;
    LockSessionsMonotone(a, b);
    LockChainsMonotone(a, b);
  }

  lemma LockSessionsMonotone(a: Signals, b: Signals)
    requires NoWorse(a, b)
    ensures LockSessions(a.blockedSessions, a.blockingSessions) <= LockSessions(b.blockedSessions, b.blockingSessions)
  {
  }

  lemma LockChainsMonotone(a: Signals, b: Signals)
    requires NoWorse(a, b)
    ensures LockChains(a.maxChainDepth, a.maxDescendants, a.maxLockWait) <=
            LockChains(b.maxChainDepth, b.maxDescendants, b.maxLockWait)
  {
  }

  lemma ConnectionsMonotone(a: Signals, b: Signals)
    requires NoWorse(a, b)
    ensures
      Connections(a.usedConnections, a.maxConnections, a.reservedConnections, a.idleInTransaction, a.activeQueries) <=
      Connections(b.usedConnections, b.maxConnections, b.reservedConnections, b.idleInTransaction, b.activeQueries)
  {
    RatioMonotone(a.usedConnections, b.usedConnections, Usable(a.maxConnections, a.reservedConnections));
  }

  lemma FactorsMonotone(a: Signals, b: Signals, l: Limits, i: nat)
    requires NoWorse(a, b) && i < 5
    ensures Factors(a, l)[i].contrib <= Factors(b, l)[i].contrib
  {
    hide Locks, Connections;
    LocksMonotone(a, b);
    ConnectionsMonotone(a, b);
  }

  lemma SumOfFive(p: seq<Contrib>)
    requires |p| == 5
    ensures Sum(p) == p[0].contrib + p[1].contrib + p[2].contrib + p[3].contrib + p[4].contrib
  {
    hide Sum;
    NoSum();
    SumStep(p, 0);
    SumStep(p, 1);
    SumStep(p, 2);
    SumStep(p, 3);
    SumStep(p, 4);
    assert p[..0] == [] && p[..5] == p;
  }

  lemma NoSum()
    ensures Sum([]) == 0
  {
  }

  lemma SumStep(p: seq<Contrib>, k: nat)
    requires k < |p|
    ensures Sum(p[..k + 1]) == Sum(p[..k]) + p[k].contrib
  {
    assert p[..k + 1][..k] == p[..k];
  }

  /** More load never lowers the score, for any limits whatever. */
  lemma PressureMonotone(a: Signals, b: Signals, l: Limits)
    requires NoWorse(a, b)
    ensures PressureScore(a, l) <= PressureScore(b, l)
  {
    SumOfFive(Factors(a, l));
    SumOfFive(Factors(b, l));
    forall i | 0 <= i < 5 ensures Factors(a, l)[i].contrib <= Factors(b, l)[i].contrib { FactorsMonotone(a, b, l, i); }
  }

  // ---------- the points, by table ----------

  datatype Point = Point(from: real, points: int)

  /** The points of the last row that `x` reaches, or 0. */
  ghost function Reached(x: real, table: seq<Point>): int {
    if table == [] then 0
    else if x >= table[|table| - 1].from then table[|table| - 1].points
    else Reached(x, table[..|table| - 1])
  }

  lemma ReachedMore(x: real, table: seq<Point>, p: Point)
    ensures Reached(x, table + [p]) == if x >= p.from then p.points else Reached(x, table)
    ensures Reached(x, []) == 0
  {
    assert (table + [p])[..|table|] == table;
  }

  lemma TableOf2(x: real, a: Point, b: Point)
    ensures Reached(x, [a, b]) == if x >= b.from then b.points else if x >= a.from then a.points else 0
  {
    ReachedMore(x, [], a);
    ReachedMore(x, [a], b);
    assert [] + [a] == [a] && [a] + [b] == [a, b];
  }

  lemma TableOf3(x: real, a: Point, b: Point, c: Point)
    ensures Reached(x, [a, b, c]) == if x >= c.from then c.points else Reached(x, [a, b])
  {
    ReachedMore(x, [a, b], c);
    assert [a, b] + [c] == [a, b, c];
  }

  ghost function UpTo(n: int, most: int): int { if n <= 0 then 0 else if n < most then n else most }

  /** Twelve points a long transaction, six an idle one, and the age of the oldest in
      limits; there may be no limit. */
  lemma TransactionPoints(s: Signals, l: Limits)
    ensures Factors(s, l)[0] == Contrib("transactions",
              12 * (if s.longTransactions > 0 then s.longTransactions else 0)
              + 6 * (if s.idleInTransaction > 0 then s.idleInTransaction else 0)
              + (if l.longTransaction <= 0 then 0
                 else Reached(s.oldestAge / l.longTransaction as real, [Point(1.0, 5), Point(2.0, 15)])))
  {
    if l.longTransaction > 0 {
      TableOf2(s.oldestAge / l.longTransaction as real, Point(1.0, 5), Point(2.0, 15));
      DividedReaches(s.oldestAge, l.longTransaction as real, 1.0);
      DividedReaches(s.oldestAge, l.longTransaction as real, 2.0);
    }
  }

  lemma DividedReaches(x: real, y: real, k: real)
    requires y > 0.0
    ensures x / y >= k <==> x >= y * k
  {
    var q := x / y;
    assert q * y == x;
    if q >= k { assert (q - k) * y >= 0.0; }
    if q < k { assert (k - q) * y > 0.0; }
  }

  lemma LockPoints(s: Signals, l: Limits)
    ensures Factors(s, l)[1] == Contrib("locks",
              Reached(s.blockedSessions as real, [Point(1.0, 8), Point(5.0, 23), Point(20.0, 48)])
              + 4 * UpTo(s.blockingSessions, 5)
              + Reached(s.maxDescendants as real, [Point(2.0, 4), Point(5.0, 8), Point(20.0, 15), Point(50.0, 25)])
              + Reached(s.maxChainDepth as real, [Point(2.0, 3), Point(3.0, 8), Point(5.0, 12)])
              + Reached(s.maxLockWait, [Point(5.0, 4), Point(30.0, 8)]))
  {
    hide Reached, LockSessions, LockChains;
    SessionPoints(s.blockedSessions, s.blockingSessions);
    ChainPoints(s);
  }

  lemma SessionPoints(blocked: int, blocking: int)
    ensures LockSessions(blocked, blocking) ==
            Reached(blocked as real, [Point(1.0, 8), Point(5.0, 23), Point(20.0, 48)]) + 4 * UpTo(blocking, 5)
  {
    hide Reached;
    TableOf2(blocked as real, Point(1.0, 8), Point(5.0, 23));
    TableOf3(blocked as real, Point(1.0, 8), Point(5.0, 23), Point(20.0, 48));
  }

  lemma ChainPoints(s: Signals)
    ensures LockChains(s.maxChainDepth, s.maxDescendants, s.maxLockWait) ==
            Reached(s.maxDescendants as real, [Point(2.0, 4), Point(5.0, 8), Point(20.0, 15), Point(50.0, 25)])
            + Reached(s.maxChainDepth as real, [Point(2.0, 3), Point(3.0, 8), Point(5.0, 12)])
            + Reached(s.maxLockWait, [Point(5.0, 4), Point(30.0, 8)])
  {
    hide Reached;
    TableOf2(s.maxDescendants as real, Point(2.0, 4), Point(5.0, 8));
    TableOf3(s.maxDescendants as real, Point(2.0, 4), Point(5.0, 8), Point(20.0, 15));
    DescendantTable(s.maxDescendants as real);
    TableOf2(s.maxChainDepth as real, Point(2.0, 3), Point(3.0, 8));
    TableOf3(s.maxChainDepth as real, Point(2.0, 3), Point(3.0, 8), Point(5.0, 12));
    TableOf2(s.maxLockWait, Point(5.0, 4), Point(30.0, 8));
  }

  lemma DescendantTable(x: real)
    ensures Reached(x, [Point(2.0, 4), Point(5.0, 8), Point(20.0, 15), Point(50.0, 25)]) ==
            if x >= 50.0 then 25 else Reached(x, [Point(2.0, 4), Point(5.0, 8), Point(20.0, 15)])
  {
    var front := [Point(2.0, 4), Point(5.0, 8), Point(20.0, 15)];
    ReachedMore(x, front, Point(50.0, 25));
    assert front + [Point(50.0, 25)] == [Point(2.0, 4), Point(5.0, 8), Point(20.0, 15), Point(50.0, 25)];
  }

  /** A positive lag at the critical limit counts 35, one at the warning limit only 18;
      a limit that is not positive is none. */
  lemma LagPoints(s: Signals, l: Limits)
    ensures Factors(s, l)[2].name == "replication_lag"
    ensures var points := Factors(s, l)[2].contrib;
            var critical := l.lagCritical > 0 && s.replicationLag > 0.0 && s.replicationLag >= l.lagCritical as real;
            var late := l.lagWarn > 0 && s.replicationLag > 0.0 && s.replicationLag >= l.lagWarn as real;
            && (points == 35 <==> critical) && (points == 18 <==> late && !critical)
            && (points == 0 <==> !late && !critical)
  {
  }

  lemma WalPoints(s: Signals, l: Limits)
    ensures Factors(s, l)[3].name == "wal"
    ensures var points := Factors(s, l)[3].contrib;
            && (points == 30 <==> s.walBytesPerSec >= l.wal.high as real)
            && (points == 15 <==> l.wal.elevated as real <= s.walBytesPerSec < l.wal.high as real)
            && (points == 0 || points == 15 || points == 30)
  {
  }

  /** Connections by the share of the slots that are not reserved, idle transactions
      again, and a bonus when every other usable slot runs a query. */
  lemma ConnectionPoints(s: Signals, l: Limits)
    ensures var free := s.maxConnections - s.reservedConnections;
            var usable := if free < 1 then 1 else free;
            var share := s.usedConnections as real / usable as real;
            Factors(s, l)[4] == Contrib("connection_pressure",
              if s.maxConnections <= 0 then 0
              else Reached(share, [Point(0.70, 8), Point(0.85, 15), Point(0.95, 25)])
                   + 2 * UpTo(s.idleInTransaction, 8)
                   + (if s.activeQueries >= 1 && 2 * s.activeQueries >= usable - 1 then 5 else 0))
  {
    hide Reached;
    var free := s.maxConnections - s.reservedConnections;
    var usable := if free < 1 then 1 else free;
    var ratio := s.usedConnections as real / usable as real;
    TableOf2(ratio, Point(0.70, 8), Point(0.85, 15));
    TableOf3(ratio, Point(0.70, 8), Point(0.85, 15), Point(0.95, 25));
  }

  /** The five factors and nothing else are summed, up to 100. */
  lemma ScoreIsSum(s: Signals, l: Limits)
    ensures |Factors(s, l)| == 5
    ensures var f := Factors(s, l);
            var total := f[0].contrib + f[1].contrib + f[2].contrib + f[3].contrib + f[4].contrib;
            PressureScore(s, l) == if total < 100 then total else 100
  {
    SumOfFive(Factors(s, l));
  }

  // ---------- the ordered explanation ----------

  /** Insertion behind everything that is at least as large. */
  ghost function Insert(t: seq<Contrib>, x: Contrib): seq<Contrib> {
    if t == [] || t[|t| - 1].contrib >= x.contrib then t + [x]
    else Insert(t[..|t| - 1], x) + [t[|t| - 1]]
  }

  ghost function Sorted(s: seq<Contrib>): seq<Contrib> {
    if s == [] then [] else Insert(Sorted(s[..|s| - 1]), s[|s| - 1])
  }

  ghost predicate Descending(s: seq<Contrib>) {
    forall i, j :: 0 <= i < j < |s| ==> s[i].contrib >= s[j].contrib
  }

  /** The entries of one size, in order. */
  ghost function OfSize(s: seq<Contrib>, c: int): seq<Contrib> {
    if s == [] then []
    else OfSize(s[..|s| - 1], c) + (if s[|s| - 1].contrib == c then [s[|s| - 1]] else [])
  }

  ghost function Positive(s: seq<Contrib>): seq<Contrib> {
    if s == [] then []
    else Positive(s[..|s| - 1]) + (if s[|s| - 1].contrib > 0 then [s[|s| - 1]] else [])
  }

  lemma {:induction false} OfSizeConcat(a: seq<Contrib>, b: seq<Contrib>, c: int)
    ensures OfSize(a + b, c) == OfSize(a, c) + OfSize(b, c)
    decreases |b|
  {
    if b == [] {
      assert a + b == a;
    } else {
      assert (a + b)[..|a + b| - 1] == a + b[..|b| - 1];
      OfSizeConcat(a, b[..|b| - 1], c);
    }
  }

  lemma OfSizeOne(x: Contrib, c: int)
    ensures OfSize([x], c) == if x.contrib == c then [x] else []
  {
    assert [x][..0] == [];
  }

  lemma {:induction false} OfSizeAbsent(t: seq<Contrib>, c: int)
    requires forall i :: 0 <= i < |t| ==> t[i].contrib != c
    ensures OfSize(t, c) == []
  {
    if t != [] { OfSizeAbsent(t[..|t| - 1], c); }
  }

  /** Where an entry lands: between those at least as large and those smaller. */
  lemma {:induction false} InsertAt(t: seq<Contrib>, x: Contrib, j: nat)
    requires j <= |t| && (j == 0 || t[j - 1].contrib >= x.contrib)
    requires forall i :: j <= i < |t| ==> t[i].contrib < x.contrib
    ensures Insert(t, x) == t[..j] + [x] + t[j..]
    decreases |t|
  {
    if j == |t| {
      assert t[..j] == t && t[j..] == [];
    } else {
      var k := |t| - 1;
      InsertAt(t[..k], x, j);
      assert t[..k][..j] == t[..j] && t[..k][j..] + [t[k]] == t[j..];
    }
  }

  lemma {:induction false} InsertPlace(t: seq<Contrib>, x: Contrib) returns (j: nat)
    requires Descending(t)
    ensures j <= |t| && Insert(t, x) == t[..j] + [x] + t[j..]
    ensures forall i :: 0 <= i < j ==> t[i].contrib >= x.contrib
    ensures forall i :: j <= i < |t| ==> t[i].contrib < x.contrib
  {
    j := |t|;
    while j > 0 && t[j - 1].contrib < x.contrib
      invariant j <= |t| && forall i :: j <= i < |t| ==> t[i].contrib < x.contrib
    {
      j := j - 1;
    }
    InsertAt(t, x, j);
  }

  lemma InsertedIsDescending(t: seq<Contrib>, x: Contrib, j: nat)
    requires Descending(t) && j <= |t|
    requires forall i :: 0 <= i < j ==> t[i].contrib >= x.contrib
    requires forall i :: j <= i < |t| ==> t[i].contrib < x.contrib
    ensures Descending(t[..j] + [x] + t[j..])
  {
  }

  lemma {:induction false} SortedIsDescending(s: seq<Contrib>)
    ensures Descending(Sorted(s))
  {
    hide Insert;
    if s != [] {
      var t, x := Sorted(s[..|s| - 1]), s[|s| - 1];
      SortedIsDescending(s[..|s| - 1]);
      var j := InsertPlace(t, x);
      InsertedIsDescending(t, x, j);
    }
  }

  lemma {:induction false} SortedIsStable(s: seq<Contrib>, c: int)
    ensures OfSize(Sorted(s), c) == OfSize(s, c)
  {
    if s != [] {
      var k := |s| - 1;
      SortedIsStable(s[..k], c);
      SortedIsDescending(s[..k]);
      var j := InsertPlace(Sorted(s[..k]), s[k]);
      OfSizeInserted(Sorted(s[..k]), s[k], j, c);
    }
  }

  lemma InsertedMultiset(t: seq<Contrib>, x: Contrib, j: nat)
    requires j <= |t|
    ensures multiset(t[..j] + [x] + t[j..]) == multiset(t + [x])
  {
    assert t == t[..j] + t[j..];
  }

  lemma SortedUnfold(s: seq<Contrib>) returns (j: nat)
    requires s != []
    ensures var t := Sorted(s[..|s| - 1]);
            j <= |t| && Sorted(s) == t[..j] + [s[|s| - 1]] + t[j..]
  {
    hide Insert;
    SortedIsDescending(s[..|s| - 1]);
    j := InsertPlace(Sorted(s[..|s| - 1]), s[|s| - 1]);
  }

  lemma {:induction false} SortedIsPermutation(s: seq<Contrib>)
    ensures multiset(Sorted(s)) == multiset(s)
  {
    hide Sorted;
    if s == [] {
      SortedNothing();
    } else {
      var k := |s| - 1;
      var j := SortedUnfold(s);
      SortedIsPermutation(s[..k]);
      InsertedMultiset(Sorted(s[..k]), s[k], j);
      assert s == s[..k] + [s[k]];
    }
  }

  lemma {:induction false} SortedKeepsSum(s: seq<Contrib>)
    ensures Sum(Sorted(s)) == Sum(s)
  {
    hide Sorted;
    if s == [] {
      SortedNothing();
    } else {
      var k := |s| - 1;
      var j := SortedUnfold(s);
      SortedKeepsSum(s[..k]);
      SumInserted(Sorted(s[..k]), s[k], j);
    }
  }

  lemma SortedNothing()
    ensures Sorted([]) == []
  {
  }

  /** The order is descending; entries of equal size keep their order, and none
      is lost or doubled. */
  lemma SortedIsStablePermutation(s: seq<Contrib>)
    ensures Descending(Sorted(s))
    ensures forall c :: OfSize(Sorted(s), c) == OfSize(s, c)
    ensures multiset(Sorted(s)) == multiset(s) && Sum(Sorted(s)) == Sum(s)
  {
    hide Sorted, OfSize, Sum;
    SortedIsDescending(s);
    SortedIsPermutation(s);
    SortedKeepsSum(s);
    forall c ensures OfSize(Sorted(s), c) == OfSize(s, c) { SortedIsStable(s, c); }
  }

  lemma OfSizeInserted(t: seq<Contrib>, x: Contrib, j: nat, c: int)
    requires j <= |t| && forall i :: j <= i < |t| ==> t[i].contrib < x.contrib
    ensures OfSize(t[..j] + [x] + t[j..], c) == OfSize(t, c) + (if x.contrib == c then [x] else [])
  {
    hide OfSize;
    assert t == t[..j] + t[j..];
    OfSizeConcat(t[..j], t[j..], c);
    OfSizeConcat(t[..j] + [x], t[j..], c);
    OfSizeConcat(t[..j], [x], c);
    OfSizeOne(x, c);
    if x.contrib == c { OfSizeAbsent(t[j..], c); }
  }

  lemma {:induction false} SumConcat(a: seq<Contrib>, b: seq<Contrib>)
    ensures Sum(a + b) == Sum(a) + Sum(b)
    decreases |b|
  {
    if b == [] {
      assert a + b == a;
    } else {
      assert (a + b)[..|a + b| - 1] == a + b[..|b| - 1];
      SumConcat(a, b[..|b| - 1]);
    }
  }

  lemma SumInserted(t: seq<Contrib>, x: Contrib, j: nat)
    requires j <= |t|
    ensures Sum(t[..j] + [x] + t[j..]) == Sum(t) + x.contrib
  {
    assert t == t[..j] + t[j..];
    SumConcat(t[..j], t[j..]);
    SumConcat(t[..j] + [x], t[j..]);
    SumConcat(t[..j], [x]);
    assert [x][..0] == [];
    assert Sum([x]) == x.contrib;
  }

  lemma NoPositive()
    ensures Positive([]) == []
  {
  }

  lemma PositiveStep(s: seq<Contrib>, i: nat)
    requires i < |s|
    ensures Positive(s[..i + 1]) == Positive(s[..i]) + (if s[i].contrib > 0 then [s[i]] else [])
  {
    assert s[..i + 1][..i] == s[..i];
  }

  lemma {:induction false} PositiveExact(s: seq<Contrib>)
    ensures forall x :: x in Positive(s) <==> x in s && x.contrib > 0
  {
    if s != [] {
      var k := |s| - 1;
      PositiveExact(s[..k]);
      assert forall x :: x in s <==> x in s[..k] || x == s[k];
    }
  }

  lemma {:induction false} PositiveDescends(s: seq<Contrib>)
    requires Descending(s)
    ensures Descending(Positive(s))
  {
    if s != [] {
      var k := |s| - 1;
      PositiveDescends(s[..k]);
      PositiveExact(s[..k]);
      PositiveStep(s, k);
      hide Positive;
      assert s[..k + 1] == s;
      var t := Positive(s[..k]);
      forall i | 0 <= i < |t| ensures t[i].contrib >= s[k].contrib { assert t[i] in t; }
    }
  }

  lemma {:induction false} PositiveSum(s: seq<Contrib>)
    requires NonNegative(s)
    ensures Sum(Positive(s)) == Sum(s)
  {
    if s != [] {
      var k := |s| - 1;
      PositiveSum(s[..k]);
      assert (Positive(s[..k]) + [s[k]])[..|Positive(s[..k])|] == Positive(s[..k]);
      assert s[k] in s;
      assert Positive(s[..k]) + [] == Positive(s[..k]);
    }
  }

  /** What is printed adds up to the score before the cap. */
  lemma ExplanationAddsUp(s: Signals, l: Limits)
    ensures var printed := Positive(Sorted(Factors(s, l)));
            PressureScore(s, l) == (if Sum(printed) < 100 then Sum(printed) else 100) && PressureScore(s, l) >= 0
    ensures var printed := Positive(Sorted(Factors(s, l)));
            Descending(printed) && forall p :: p in printed <==> p in Factors(s, l) && p.contrib > 0
  {
    FactorsNonNegative(s, l);
    var p, q := Factors(s, l), Sorted(Factors(s, l));
    SortedIsStablePermutation(p);
    assert NonNegative(q) by {
      forall x | x in q ensures x.contrib >= 0 { assert x in multiset(q); assert x in multiset(p); }
    }
    PositiveSum(q);
    PositiveExact(q);
    PositiveDescends(q);
    SumNonNegative(p);
    forall x ensures x in q <==> x in p { assert x in multiset(q) <==> x in multiset(p); }
  }

  lemma {:induction false} SumNonNegative(s: seq<Contrib>)
    requires NonNegative(s)
    ensures Sum(s) >= 0
  {
    if s != [] { SumNonNegative(s[..|s| - 1]); }
  }

  // ---------- the code that stores, sorts and lists ----------

  class RuntimeState {
    var signals: Signals
    var pressureTx: int
    var pressureLocks: int
    var pressureReplication: int
    var pressureWal: int
    var pressureConnections: int
    var pressureScore: int

    ghost function Parts(): seq<Contrib>
      reads this
    {
      [Contrib("transactions", pressureTx), Contrib("locks", pressureLocks),
       Contrib("replication_lag", pressureReplication), Contrib("wal", pressureWal),
       Contrib("connection_pressure", pressureConnections)]
    }

    constructor (signals: Signals)
      ensures this.signals == signals && pressureScore == 0
    {
      this.signals := signals;
      pressureTx, pressureLocks, pressureReplication, pressureWal, pressureConnections := 0, 0, 0, 0, 0;
      pressureScore := 0;
    }

    method ComputePressure(l: Limits)
      modifies this
      ensures signals == old(signals) && Parts() == Factors(signals, l)
      ensures pressureScore == PressureScore(signals, l)
    {
      var s := signals;
      pressureTx := Transactions(s.longTransactions, s.idleInTransaction, s.oldestAge, l.longTransaction);
      pressureLocks := Locks(s.blockedSessions, s.blockingSessions, s.maxChainDepth, s.maxDescendants, s.maxLockWait);
      pressureReplication := Replication(s.replicationLag, l.lagWarn, l.lagCritical);
      pressureWal := WalCache.Score(s.walBytesPerSec, l.wal);
      pressureConnections := Connections(s.usedConnections, s.maxConnections, s.reservedConnections,
                                         s.idleInTransaction, s.activeQueries);
      pressureScore := Combine5(pressureTx, pressureLocks, pressureReplication, pressureWal, pressureConnections);
      FactorsNonNegative(s, l);
      SumOfFive(Factors(s, l));
      SumNonNegative(Factors(s, l));
    }

    /** The lines of the explanation, largest contribution first. */
    method FormatContributors() returns (lines: seq<Contrib>)
      ensures lines == Positive(Sorted(Parts()))
    {
      hide Positive, Sorted;
      ghost var input := Parts();
      var parts := new Contrib[5](_ => Contrib("", 0));
      parts[0] := Contrib("transactions", pressureTx);
      parts[1] := Contrib("locks", pressureLocks);
      parts[2] := Contrib("replication_lag", pressureReplication);
      parts[3] := Contrib("wal", pressureWal);
      parts[4] := Contrib("connection_pressure", pressureConnections);
      assert parts[..] == input;
      SortDescending(parts);
      ghost var sorted := parts[..];
      lines := [];
      assert sorted[..0] == [] && Positive([]) == [] by { NoPositive(); }
      for i := 0 to parts.Length
        invariant lines == Positive(sorted[..i]) && parts[..] == sorted
      {
        PositiveStep(sorted, i);
        if parts[i].contrib <= 0 { continue; }
        lines := lines + [parts[i]];
      }
      assert sorted[..parts.Length] == sorted;
    }
  }

  /** Insertion sort in place. */
  method SortDescending(parts: array<Contrib>)
    modifies parts
    ensures parts[..] == Sorted(old(parts[..]))
  {
    ghost var input := parts[..];
    if parts.Length == 0 { return; }
    SortedOne(input[..1]);
    for i := 1 to parts.Length
      invariant parts[..i] == Sorted(input[..i])
      invariant parts[i..] == input[i..]
    {
      var tmp := parts[i];
      ghost var t := parts[..i];
      assert tmp == input[i] by { assert parts[i..][0] == input[i..][0]; }
      InsertInPlace(parts, i);
      assert input[..i + 1][..i] == input[..i];
      assert parts[i + 1..] == input[i + 1..] by { assert parts[i + 1..] == input[i..][1..]; }
    }
    assert parts[..] == parts[..parts.Length] && input[..parts.Length] == input;
  }

  lemma SortedOne(s: seq<Contrib>)
    requires |s| == 1
    ensures Sorted(s) == s
  {
    assert s[..0] == [];
  }

  method InsertInPlace(parts: array<Contrib>, i: nat)
    requires 1 <= i < parts.Length
    modifies parts
    ensures parts[..i + 1] == Insert(old(parts[..i]), old(parts[i]))
    ensures parts[i + 1..] == old(parts[i + 1..])
  {
    var tmp := parts[i];
    ghost var t, rest := parts[..i], parts[i + 1..];
    var j := i;
    while j > 0 && parts[j - 1].contrib < tmp.contrib
      invariant 0 <= j <= i && parts[..j] == t[..j] && parts[j + 1..i + 1] == t[j..] && parts[i + 1..] == rest
      invariant forall k :: j <= k < i ==> t[k].contrib < tmp.contrib
    {
      assert parts[j - 1] == t[j - 1];
      parts[j] := parts[j - 1];
      j := j - 1;
      assert parts[j + 1..i + 1] == [t[j]] + t[j + 1..];
    }
    assert j > 0 ==> parts[j - 1] == t[j - 1];
    parts[j] := tmp;
    InsertAt(t, tmp, j);
    assert parts[..i + 1] == parts[..j] + [parts[j]] + parts[j + 1..i + 1];
  }
}
