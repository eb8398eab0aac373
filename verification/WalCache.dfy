/** The WAL rate cache that shares the event ring's lock, and the pressure
    score that reads the rate. Rates are exact reals. */
module WalCache {
  const MICROS := 1000000

  datatype Thresholds = Thresholds(elevated: int, high: int)

  datatype Cache = Cache(valid: bool, bytes: nat, time: int, bps: real, level: int)

  function LevelOf(bps: real, th: Thresholds): int {
    if bps >= th.high as real then 3
    else if bps >= th.elevated as real then 2
    else if bps > 0.0 then 1
    else 0
  }

  /** The pressure factor computed from the rate. */
  function Score(bps: real, th: Thresholds): int {
    if bps >= th.high as real then 30
    else if bps >= th.elevated as real then 15
    else 0
  }

  // ---------- what one sample does ----------

  datatype Sample = Sample(bytes: nat, now: int, th: Thresholds)

  ghost predicate Refreshes(c: Cache, s: Sample) {
    !c.valid || s.now - c.time >= MICROS
  }

  ghost function Rate(c: Cache, s: Sample): real
    requires c.valid && s.now - c.time >= MICROS
  {
    if s.bytes >= c.bytes then (s.bytes - c.bytes) as real / Seconds(c.time, s.now) else 0.0
  }

  ghost function Seconds(from: int, to: int): real { (to - from) as real / 1000000.0 }

  ghost function After(c: Cache, s: Sample): Cache {
    if !c.valid then Cache(true, s.bytes, s.now, 0.0, 0)
    else if Refreshes(c, s) then Cache(true, s.bytes, s.now, Rate(c, s), LevelOf(Rate(c, s), s.th))
    else c
  }

  class WalState {
    var valid: bool
    var walBytes: nat
    var sampleTime: int
    var bytesPerSec: real
    var pressureLevel: int

    ghost function View(): Cache
      reads this
    {
      Cache(valid, walBytes, sampleTime, bytesPerSec, pressureLevel)
    }

    /** All samples so far, in the order in which they got the lock. */
    ghost var samples: seq<Sample>

    ghost predicate Valid()
      reads this
    {
      View() == Run(samples)
    }

    constructor ()
      ensures Valid() && samples == []
    {
      valid, walBytes, sampleTime, bytesPerSec, pressureLevel, samples := false, 0, 0, 0.0, 0, [];
    }

    /** The cache is that of the run with one more sample, and the caller is told
        what it then says. */
    method SampleUpdate(bytes: nat, now: int, th: Thresholds) returns (bps: real, level: int)
      requires Valid()
      modifies this
      ensures Valid() && samples == old(samples) + [Sample(bytes, now, th)]
      ensures bps == Run(samples).bps && level == Run(samples).level
    {
      hide Run;
      samples := samples + [Sample(bytes, now, th)];
      RunStep(old(samples), Sample(bytes, now, th));
      InvalidIsEmpty(old(samples));
      bps, level := 0.0, 0;
      if valid {
        var usec := now - sampleTime;
        if usec >= MICROS {
          var secs := usec as real / 1000000.0;
          var prev := walBytes;
          if bytes >= prev && secs > 0.0 {
            bps := (bytes - prev) as real / secs;
          } else {
            bps := 0.0;
          }
          if bps >= th.high as real {
            level := 3;
          } else if bps >= th.elevated as real {
            level := 2;
          } else if bps > 0.0 {
            level := 1;
          } else {
            level := 0;
          }
          walBytes, sampleTime, bytesPerSec, pressureLevel := bytes, now, bps, level;
        } else {
          bps, level := bytesPerSec, pressureLevel;
        }
      } else {
        valid, walBytes, sampleTime, bytesPerSec, pressureLevel := true, bytes, now, 0.0, 0;
      }
    }

    /** A reader is told what the caller of the latest sample was told, and zeros
        before there is one. */
    method CacheRead() returns (bps: real, level: int)
      requires Valid()
      ensures bps == Run(samples).bps && level == Run(samples).level
      ensures samples == [] ==> bps == 0.0 && level == 0
    {
      InvalidIsEmpty(samples);
      bps, level := 0.0, 0;
      if valid {
        bps, level := bytesPerSec, pressureLevel;
      }
    }
  }

  lemma RunStep(samples: seq<Sample>, s: Sample)
    ensures Run(samples + [s]) == After(Run(samples), s)
  {
    assert (samples + [s])[..|samples|] == samples;
  }

  lemma InvalidIsEmpty(samples: seq<Sample>)
    ensures !Run(samples).valid <==> samples == []
    ensures !Run(samples).valid ==> Run(samples) == Empty()
  {
  }

  // ---------- runs ----------

  ghost function Empty(): Cache { Cache(false, 0, 0, 0.0, 0) }

  ghost function Run(samples: seq<Sample>): Cache {
    if samples == [] then Empty() else After(Run(samples[..|samples| - 1]), samples[|samples| - 1])
  }

  /** The cache right after a refresh, with the thresholds then in force. */
  datatype Refresh = Refresh(cache: Cache, th: Thresholds)

  ghost function History(samples: seq<Sample>): seq<Refresh> {
    if samples == [] then []
    else
      var k := |samples| - 1;
      History(samples[..k]) +
      (if Refreshes(Run(samples[..k]), samples[k]) then [Refresh(Run(samples), samples[k].th)] else [])
  }

  ghost predicate Follows(a: Refresh, b: Refresh) {
    && a.cache.valid
    && b.cache.time - a.cache.time >= MICROS
    && b.cache == After(a.cache, Sample(b.cache.bytes, b.cache.time, b.th))
  }

  ghost predicate Chained(h: seq<Refresh>) {
    |h| <= 1 || (Chained(h[..|h| - 1]) && Follows(h[|h| - 2], h[|h| - 1]))
  }

  /** Refreshes are at least a second apart by the clock readings that caused
      them, whatever the clock did in between, and whatever a caller sees
      afterwards is the latest refresh. */
  lemma {:induction false} RefreshesAreSpaced(samples: seq<Sample>)
    ensures Chained(History(samples))
    ensures samples != [] ==> EndsWith(History(samples), samples[0].bytes, Run(samples))
  {
    hide After;
    if samples != [] {
      var k := |samples| - 1;
      RefreshesAreSpaced(samples[..k]);
      assert k > 0 ==> samples[..k][0] == samples[0];
      Extend(History(samples[..k]), samples[0].bytes, Run(samples[..k]), samples[k]);
    }
  }

  ghost predicate EndsWith(h: seq<Refresh>, first: nat, c: Cache) {
    |h| > 0 && h[|h| - 1].cache == c && c.valid
    && h[0].cache.bytes == first && h[0].cache.bps == 0.0 && h[0].cache.level == 0
  }

  lemma Extend(h: seq<Refresh>, first: nat, c: Cache, s: Sample)
    requires Chained(h) && (if h == [] then !c.valid && s.bytes == first else EndsWith(h, first, c))
    ensures var h' := h + (if Refreshes(c, s) then [Refresh(After(c, s), s.th)] else []);
            Chained(h') && EndsWith(h', first, After(c, s))
  {
    var h' := h + [Refresh(After(c, s), s.th)];
    assert h'[..|h'| - 1] == h;
    assert h + [] == h;
  }

  /** Two neighbouring refreshes, spelled out. */
  lemma {:induction false} SpacedAt(h: seq<Refresh>, i: nat)
    requires Chained(h) && 0 < i < |h|
    ensures Follows(h[i - 1], h[i]) && Seconds(h[i - 1].cache.time, h[i].cache.time) >= 1.0
  {
    if i < |h| - 1 { SpacedAt(h[..|h| - 1], i); }
  }

  /** Rate and level of `c`, which was `secs` after `b` with `bytes` more. */
  ghost predicate Measures(c: Cache, secs: real, grown: int, th: Thresholds) {
    && c.bps * secs == (if grown >= 0 then grown else 0) as real
    && (c.level == 3 <==> c.bps >= th.high as real)
    && (c.level == 2 <==> th.elevated as real <= c.bps < th.high as real)
    && (c.level == 1 <==> 0.0 < c.bps < th.elevated as real && c.bps < th.high as real)
    && 0 <= c.level <= 3
  }

  /** What one more sample does, in seconds and bytes: a full second after the cached
      one, or as the first, it replaces it; otherwise nothing changes. */
  lemma NextSample(samples: seq<Sample>, s: Sample)
    ensures var c, c' := Run(samples), Run(samples + [s]);
            && (samples == [] ==> c' == Cache(true, s.bytes, s.now, 0.0, 0))
            && (samples != [] && s.now - c.time < 1000000 ==> c' == c)
            && (samples != [] && s.now - c.time >= 1000000 ==>
                  c'.valid && c'.bytes == s.bytes && c'.time == s.now
                  && Measures(c', (s.now - c.time) as real / 1000000.0, s.bytes - c.bytes, s.th))
  {
    hide Run;
    RunStep(samples, s);
    InvalidIsEmpty(samples);
    var c := Run(samples);
    if samples != [] && s.now - c.time >= 1000000 && s.bytes >= c.bytes {
      Scale((s.bytes - c.bytes) as real, Seconds(c.time, s.now));
    }
  }

  /** The same, said of two callers: with no refresh between them they are told
      the same rate and level. */
  lemma {:induction false} QuietCallersAgree(samples: seq<Sample>, i: nat, j: nat)
    requires i <= j <= |samples| && History(samples[..i]) == History(samples[..j]) && i > 0
    ensures Run(samples[..i]) == Run(samples[..j])
  {
    RefreshesAreSpaced(samples[..i]);
    RefreshesAreSpaced(samples[..j]);
  }

  // ---------- conservation ----------

  /** Rate times elapsed time, summed over the refreshes. */
  ghost function Volume(h: seq<Refresh>): real {
    if |h| <= 1 then 0.0
    else
      var k := |h| - 1;
      Volume(h[..k]) + h[k].cache.bps * Seconds(h[k - 1].cache.time, h[k].cache.time)
  }

  /** Bytes by which the counter went backwards. */
  ghost function Drops(h: seq<Refresh>): nat {
    if |h| <= 1 then 0
    else
      var k := |h| - 1;
      Drops(h[..k]) + (if h[k].cache.bytes < h[k - 1].cache.bytes then h[k - 1].cache.bytes - h[k].cache.bytes else 0)
  }

  ghost predicate NonDecreasing(h: seq<Refresh>) {
    forall i :: 0 < i < |h| ==> h[i - 1].cache.bytes <= h[i].cache.bytes
  }

  lemma Scale(x: real, y: real)
    requires y != 0.0
    ensures (x / y) * y == x
  {
  }

  /** One refresh accounts for the bytes since the one before. */
  lemma RefreshVolume(a: Refresh, b: Refresh)
    requires Follows(a, b)
    ensures b.cache.bps * Seconds(a.cache.time, b.cache.time) ==
            (if b.cache.bytes >= a.cache.bytes then b.cache.bytes - a.cache.bytes else 0) as real
  {
    if b.cache.bytes >= a.cache.bytes {
      Scale((b.cache.bytes - a.cache.bytes) as real, Seconds(a.cache.time, b.cache.time));
    }
  }

  lemma {:induction false} VolumeTelescopes(h: seq<Refresh>)
    requires Chained(h) && |h| > 0
    ensures Volume(h) == (h[|h| - 1].cache.bytes - h[0].cache.bytes + Drops(h)) as real
  {
    hide Follows;
    if |h| > 1 {
      VolumeTelescopes(h[..|h| - 1]);
      RefreshVolume(h[|h| - 2], h[|h| - 1]);
    }
  }

  lemma {:induction false} NoDropsIff(h: seq<Refresh>)
    ensures Drops(h) == 0 <==> NonDecreasing(h)
  {
    if |h| > 1 {
      var k := |h| - 1;
      NoDropsIff(h[..k]);
      assert NonDecreasing(h) <==> NonDecreasing(h[..k]) && h[k - 1].cache.bytes <= h[k].cache.bytes;
    }
  }

  /** Over any run of samples the sum of rate times elapsed seconds is the cached
      byte count minus the first sample exactly if no refresh saw the counter
      go backwards. */
  lemma {:induction false} RatesAccountForBytes(samples: seq<Sample>)
    requires samples != []
    ensures Volume(History(samples)) == (Run(samples).bytes - samples[0].bytes) as real <==>
            NonDecreasing(History(samples))
  {
    RefreshesAreSpaced(samples);
    VolumeTelescopes(History(samples));
    NoDropsIff(History(samples));
  }

  // ---------- level and score ----------

  ghost predicate Agrees(level: int, score: int) {
    && 0 <= level <= 3
    && (level == 3 <==> score == 30) && (level == 2 <==> score == 15) && (level < 2 <==> score == 0)
  }

  /** The cached level and the pressure score of the cached rate say the same
      under the thresholds of the latest refresh. */
  lemma {:induction false} LevelMatchesScore(samples: seq<Sample>)
    requires samples != [] && forall s :: s in samples ==> s.th.elevated >= 1 && s.th.high >= 1
    ensures var h := History(samples);
            |h| > 0 && Agrees(Run(samples).level, Score(Run(samples).bps, h[|h| - 1].th))
  {
    RefreshesAreSpaced(samples);
    HistoryThresholds(samples);
    var h := History(samples);
    assert h[|h| - 1] in h;
  }

  lemma {:induction false} HistoryThresholds(samples: seq<Sample>)
    ensures forall r :: r in History(samples) ==> exists s :: s in samples && s.th == r.th
  {
    if samples != [] {
      var k := |samples| - 1;
      HistoryThresholds(samples[..k]);
      assert samples[k] in samples;
    }
  }

  /** Under any other thresholds they do so exactly if the rate is on the same side
      of both the old and the new ones, as far as the score looks. */
  lemma {:induction false} LevelAgreesIff(samples: seq<Sample>, th: Thresholds)
    requires samples != [] && th.elevated >= 1 && th.high >= 1
    requires forall s :: s in samples ==> s.th.elevated >= 1 && s.th.high >= 1
    ensures |History(samples)| > 0
    ensures var c, last := Run(samples), History(samples)[|History(samples)| - 1].th;
            Agrees(c.level, Score(c.bps, th)) <==>
            && (c.bps >= th.high as real <==> c.bps >= last.high as real)
            && (c.bps < th.high as real ==> (c.bps >= th.elevated as real <==> c.bps >= last.elevated as real))
  {
    hide Run, History;
    LevelMatchesScore(samples);
  }

  /** While nobody changes the thresholds, they are the ones now in force. */
  lemma {:induction false} FixedThresholdsAgree(samples: seq<Sample>, th: Thresholds)
    requires samples != [] && th.elevated >= 1 && th.high >= 1 && forall s :: s in samples ==> s.th == th
    ensures Agrees(Run(samples).level, Score(Run(samples).bps, th))
  {
    LevelMatchesScore(samples);
    HistoryThresholds(samples);
    var h := History(samples);
    assert h[|h| - 1] in h;
  }

  /** A change of thresholds can leave the cached level behind until the next
      refresh: 100 bytes a second was critical at 50, then scores nothing at
      1000. */
  lemma LevelGoesStale()
    ensures var low, raised := Thresholds(10, 50), Thresholds(500, 1000);
            var samples := [Sample(0, 0, low), Sample(100, 1000000, low), Sample(150, 1500000, raised)];
            Run(samples).level == 3 && Score(Run(samples).bps, raised) == 0
  {
    var low, raised := Thresholds(10, 50), Thresholds(500, 1000);
    var a, b, c := Sample(0, 0, low), Sample(100, 1000000, low), Sample(150, 1500000, raised);
    assert [a, b, c][..2] == [a, b] && [a, b][..1] == [a] && [a][..0] == [];
    assert Run([a]) == Cache(true, 0, 0, 0.0, 0);
    assert Run([a, b]) == Cache(true, 100, 1000000, 100.0, 3);
  }
}
