/** Which clocks let the pruning limiter decide like one that keeps the whole admission history. */
module LimiterClocks {
  import opened RateLimiter

  function Clocks(events: seq<Event>): (r: seq<int>)
    ensures |r| == |events| && forall i :: 0 <= i < |events| ==> r[i] == events[i].now
  {
    seq(|events|, i requires 0 <= i < |events| => events[i].now)
  }

  /** The j-th reading is a window or more past the i-th. */
  predicate Past(clocks: seq<int>, window: int, i: nat, j: nat)
    requires i < |clocks| && j < |clocks|
  {
    clocks[i] + window <= clocks[j]
  }

  /** Once a clock is a window past a reading, no later one is back within the window. */
  ghost predicate Settling(clocks: seq<int>, window: int) {
    forall i: nat, j: nat, k: nat :: i < j < k < |clocks| && Past(clocks, window, i, j) ==> Past(clocks, window, i, k)
  }

  /** Clocks that never go back do settle. */
  lemma ForwardSettles(clocks: seq<int>, window: int)
    requires forall i, j :: 0 <= i < j < |clocks| ==> clocks[i] <= clocks[j]
    ensures Settling(clocks, window)
  {
  }

  lemma SettlingPrefix(clocks: seq<int>, n: nat, window: int)
    requires Settling(clocks, window) && n <= |clocks|
    ensures Settling(clocks[..n], window)
  {
    forall i: nat, j: nat, k: nat | i < j < k < n && Past(clocks[..n], window, i, j)
      ensures Past(clocks[..n], window, i, k) {
      assert Past(clocks, window, i, j) && Past(clocks, window, i, k);
    }
  }

  /** A decision with this cutoff counts the same hits in the table as in the log. */
  ghost predicate Mirrors(hits: Hits, log: seq<Admission>, key: string, cutoff: int) {
    Recent(HitsOf(hits, key), cutoff) == Recent(TimesOf(log, key), cutoff)
  }

  /** What a sweep drops is too old for the later decision as well. */
  ghost predicate Spares(times: seq<int>, swept: int, cutoff: int) {
    forall i :: 0 <= i < |times| && times[i] <= swept ==> times[i] <= cutoff
  }

  lemma {:induction false} RecentUnaffected(times: seq<int>, pruned: int, cutoff: int)
    requires Spares(times, pruned, cutoff)
    ensures Recent(Recent(times, pruned), cutoff) == Recent(times, cutoff)
  {
    if times != [] {
      var n := |times| - 1;
      RecentUnaffected(times[..n], pruned, cutoff);
      RecentSnoc(Recent(times[..n], pruned), times[n], cutoff);
    }
  }

  lemma PruneMirrors(hits: Hits, log: seq<Admission>, key: string, pruned: int, cutoff: int)
    requires Mirrors(hits, log, key, pruned)
    requires Spares(TimesOf(log, key), pruned, cutoff)
    ensures Mirrors(Pruned(hits, pruned), log, key, cutoff)
  {
    PrunedAt(hits, key, pruned);
    RecentUnaffected(TimesOf(log, key), pruned, cutoff);
  }

  lemma AdmissionMirrors(hits: Hits, log: seq<Admission>, k: string, now: int, key: string, cutoff: int)
    requires Mirrors(hits, log, key, cutoff)
    ensures Mirrors(hits[k := HitsOf(hits, k) + [now]], log + [Admission(k, now)], key, cutoff)
  {
    TimesOfSnoc(log, Admission(k, now), key);
    RecentSnoc(TimesOf(log, key), now, cutoff);
    RecentSnoc(HitsOf(hits, key), now, cutoff);
  }

  /** One event keeps the mirror for a later decision, if it kept it for its own. */
  lemma StepMirrors(hits: Hits, log: seq<Admission>, e: Event, limit: int, window: int, key: string, cutoff: int)
    requires Mirrors(hits, log, key, e.now - window)
    requires e.Attempt? ==> Mirrors(hits, log, e.key, e.now - window)
    requires Spares(TimesOf(log, key), e.now - window, cutoff)
    ensures Mirrors(TableStep(hits, e, limit, window), LogStep(log, e, limit, window), key, cutoff)
  {
    PruneMirrors(hits, log, key, e.now - window, cutoff);
    if e.Attempt? {
      AttemptSteps(hits, log, e.key, e.now, limit, window);
      if FullAdmits(log, e.key, e.now, limit, window) {
        AdmissionMirrors(Pruned(hits, e.now - window), log, e.key, e.now, key, cutoff);
      }
    }
  }

  /** An attempt the mirror covers adds the same hit to the swept table and to the log, or to neither. */
  lemma AttemptSteps(hits: Hits, log: seq<Admission>, key: string, now: int, limit: int, window: int)
    requires Mirrors(hits, log, key, now - window)
    ensures var swept := Pruned(hits, now - window);
            var admitted := FullAdmits(log, key, now, limit, window);
            && TableStep(hits, Attempt(key, now), limit, window) ==
               (if admitted then swept[key := HitsOf(swept, key) + [now]] else swept)
            && LogStep(log, Attempt(key, now), limit, window) == if admitted then log + [Admission(key, now)] else log
  {
    PrunedAt(hits, key, now - window);
  }

  /** Admissions carry the clock of their event. */
  lemma {:induction false} LoggedClocks(events: seq<Event>, limit: int, window: int, key: string, t: int)
    requires t in TimesOf(LogAfter(events, limit, window), key)
    ensures exists i :: 0 <= i < |events| && events[i].now == t
  {
    var n := |events| - 1;
    var log, e := LogAfter(events[..n], limit, window), events[n];
    if t in TimesOf(log, key) {
      LoggedClocks(events[..n], limit, window, key, t);
      var i :| 0 <= i < n && events[..n][i].now == t;
      assert events[i].now == t;
    } else {
      TimesOfSnoc(log, Admission(e.key, e.now), key);
      assert events[n].now == t;
    }
  }

  lemma SweepSpares(events: seq<Event>, j: nat, k: nat, limit: int, window: int, key: string)
    requires j < k < |events| && Settling(Clocks(events), window)
    ensures Spares(TimesOf(LogAfter(events[..j], limit, window), key), events[j].now - window, events[k].now - window)
  {
    var times := TimesOf(LogAfter(events[..j], limit, window), key);
    forall m | 0 <= m < |times| && times[m] <= events[j].now - window ensures times[m] <= events[k].now - window {
      LoggedClocks(events[..j], limit, window, key, times[m]);
      var i :| 0 <= i < j && events[..j][i].now == times[m];
      StaysPast(events, window, i, j, k);
    }
  }

  lemma PrefixStep(events: seq<Event>, n: nat, limit: int, window: int)
    requires n < |events|
    ensures TableAfter(events[..n + 1], limit, window) ==
            TableStep(TableAfter(events[..n], limit, window), events[n], limit, window)
    ensures LogAfter(events[..n + 1], limit, window) ==
            LogStep(LogAfter(events[..n], limit, window), events[n], limit, window)
  {
    assert events[..n + 1][..n] == events[..n];
  }

  /** The mirror of the first n events, for a decision with this cutoff. */
  ghost predicate MirrorsAt(events: seq<Event>, n: nat, limit: int, window: int, key: string, cutoff: int)
    requires n <= |events|
  {
    Mirrors(TableAfter(events[..n], limit, window), LogAfter(events[..n], limit, window), key, cutoff)
  }

  lemma MirrorsNext(events: seq<Event>, j: nat, limit: int, window: int, key: string, cutoff: int)
    requires j < |events| && MirrorsAt(events, j, limit, window, key, events[j].now - window)
    requires events[j].Attempt? ==> MirrorsAt(events, j, limit, window, events[j].key, events[j].now - window)
    requires Spares(TimesOf(LogAfter(events[..j], limit, window), key), events[j].now - window, cutoff)
    ensures MirrorsAt(events, j + 1, limit, window, key, cutoff)
  {
    PrefixStep(events, j, limit, window);
    StepMirrors(TableAfter(events[..j], limit, window), LogAfter(events[..j], limit, window), events[j], limit, window,
      key, cutoff);
  }

  lemma MirrorsLater(events: seq<Event>, j: nat, k: nat, limit: int, window: int, key: string)
    requires j < k < |events| && Settling(Clocks(events), window)
    requires MirrorsAt(events, j, limit, window, key, events[j].now - window)
    requires events[j].Attempt? ==> MirrorsAt(events, j, limit, window, events[j].key, events[j].now - window)
    ensures MirrorsAt(events, j + 1, limit, window, key, events[k].now - window)
  {
    SweepSpares(events, j, k, limit, window, key);
    MirrorsNext(events, j, limit, window, key, events[k].now - window);
  }

  /** For the decision of event k, the table after the first n events is as good as the log. */
  lemma {:induction false} TableMirrorsLog(events: seq<Event>, n: nat, k: nat, limit: int, window: int, key: string)
    requires n <= k < |events| && Settling(Clocks(events), window)
    ensures MirrorsAt(events, n, limit, window, key, events[k].now - window)
    decreases n
  {
    if n > 0 {
      var j := n - 1;
      TableMirrorsLog(events, j, j, limit, window, key);
      if events[j].Attempt? {
        TableMirrorsLog(events, j, j, limit, window, events[j].key);
      }
      MirrorsLater(events, j, k, limit, window, key);
    }
  }

  lemma StaysPast(events: seq<Event>, window: int, i: nat, j: nat, k: nat)
    requires Settling(Clocks(events), window) && i < j < k < |events| && events[i].now + window <= events[j].now
    ensures events[i].now + window <= events[k].now
  {
    assert Past(Clocks(events), window, i, j);
    assert Past(Clocks(events), window, i, k);
  }

  lemma SameDecision(hits: Hits, log: seq<Admission>, key: string, now: int, limit: int, window: int)
    requires Mirrors(hits, log, key, now - window)
    ensures Admits(hits, key, now, limit, window) == FullAdmits(log, key, now, limit, window)
  {
  }

  /** The last attempt of a run is decided alike. */
  lemma DecidedLikeLog(events: seq<Event>, limit: int, window: int)
    requires Settling(Clocks(events), window) && events != [] && events[|events| - 1].Attempt?
    ensures var front, e := events[..|events| - 1], events[|events| - 1];
            Admits(TableAfter(front, limit, window), e.key, e.now, limit, window) ==
            FullAdmits(LogAfter(front, limit, window), e.key, e.now, limit, window)
  {
    var n := |events| - 1;
    var front, e := events[..n], events[n];
    TableMirrorsLog(events, n, n, limit, window, e.key);
    SameDecision(TableAfter(front, limit, window), LogAfter(front, limit, window), e.key, e.now, limit, window);
  }

  lemma FrontSettles(events: seq<Event>, window: int)
    requires Settling(Clocks(events), window) && events != []
    ensures Settling(Clocks(events[..|events| - 1]), window)
  {
    var n := |events| - 1;
    assert Clocks(events[..n]) == Clocks(events)[..n];
    SettlingPrefix(Clocks(events), n, window);
  }

  /** With clocks that settle, the pruning limiter decides every attempt like the one
      that keeps the whole admission history. */
  lemma {:induction false} SameDecisions(events: seq<Event>, limit: int, window: int)
    requires Settling(Clocks(events), window)
    ensures Decisions(events, limit, window) == FullDecisions(events, limit, window)
  {
    if events != [] {
      FrontSettles(events, window);
      SameDecisions(events[..|events| - 1], limit, window);
      if events[|events| - 1].Attempt? {
        DecidedLikeLog(events, limit, window);
      }
    }
  }

  /** Interleaved PruneExpired calls change no decision. */
  lemma PruningIsInvisible(events: seq<Event>, limit: int, window: int)
    requires Settling(Clocks(events), window)
    ensures Decisions(events, limit, window) == Decisions(Attempts(events), limit, window)
  {
    AttemptsSettle(events, window);
    SameDecisions(events, limit, window);
    SameDecisions(Attempts(events), limit, window);
    FullIgnoresPrunes(events, limit, window);
  }

  /** The run without its PruneExpired calls. */
  function Attempts(events: seq<Event>): seq<Event> {
    if events == [] then []
    else
      var n := |events| - 1;
      if events[n].Attempt? then Attempts(events[..n]) + [events[n]] else Attempts(events[..n])
  }

  /** Where the k-th attempt is among all events. */
  function PlaceOf(events: seq<Event>, k: nat): (p: nat)
    requires k < |Attempts(events)|
    ensures p < |events| && events[p] == Attempts(events)[k]
  {
    var n := |events| - 1;
    if k < |Attempts(events[..n])| then PlaceOf(events[..n], k) else n
  }

  lemma {:induction false} PlacesAscend(events: seq<Event>, j: nat, k: nat)
    requires j < k < |Attempts(events)|
    ensures PlaceOf(events, j) < PlaceOf(events, k)
  {
    var n := |events| - 1;
    if k < |Attempts(events[..n])| {
      PlacesAscend(events[..n], j, k);
    }
  }

  lemma AttemptsSettle(events: seq<Event>, window: int)
    requires Settling(Clocks(events), window)
    ensures Settling(Clocks(Attempts(events)), window)
  {
    var sub := Attempts(events);
    forall i: nat, j: nat, k: nat | i < j < k < |sub| && Past(Clocks(sub), window, i, j)
      ensures Past(Clocks(sub), window, i, k) {
      PlacesAscend(events, i, j);
      PlacesAscend(events, j, k);
      StaysPast(events, window, PlaceOf(events, i), PlaceOf(events, j), PlaceOf(events, k));
    }
  }

  lemma FullSnoc(events: seq<Event>, e: Event, limit: int, window: int)
    ensures var log := LogAfter(events, limit, window);
            && LogAfter(events + [e], limit, window) == LogStep(log, e, limit, window)
            && FullDecisions(events + [e], limit, window) ==
                 (var d := FullDecisions(events, limit, window);
                   if e.Attempt? then d + [FullAdmits(log, e.key, e.now, limit, window)] else d)
  {
    assert (events + [e])[..|events|] == events;
  }

  lemma {:induction false} FullIgnoresPrunes(events: seq<Event>, limit: int, window: int)
    ensures LogAfter(Attempts(events), limit, window) == LogAfter(events, limit, window)
    ensures FullDecisions(Attempts(events), limit, window) == FullDecisions(events, limit, window)
  {
    if events != [] {
      var n := |events| - 1;
      FullIgnoresPrunes(events[..n], limit, window);
      FullSnoc(Attempts(events[..n]), events[n], limit, window);
      FullSnoc(events[..n], events[n], limit, window);
      assert events == events[..n] + [events[n]];
      assert events[n].Prune? ==> Attempts(events) == Attempts(events[..n]);
    }
  }

  // ----- exactly which clocks -------------------------------------------------------------

  /** A hit at i, a sweep by every other clock, and an attempt at k. */
  function Revisit(clocks: seq<int>, i: nat, k: nat, key: string): (r: seq<Event>)
    ensures |r| == |clocks|
    ensures forall m :: 0 <= m < |r| ==> r[m] == if m == i || m == k then Attempt(key, clocks[m]) else Prune(clocks[m])
  {
    seq(|clocks|, m requires 0 <= m < |clocks| => if m == i || m == k then Attempt(key, clocks[m])
      else Prune(clocks[m]))
  }

  lemma PruneSnoc(events: seq<Event>, n: nat, limit: int, window: int)
    requires n < |events| && events[n].Prune?
    ensures TableAfter(events[..n + 1], limit, window) ==
            Pruned(TableAfter(events[..n], limit, window), events[n].now - window)
    ensures LogAfter(events[..n + 1], limit, window) == LogAfter(events[..n], limit, window)
    ensures Decisions(events[..n + 1], limit, window) == Decisions(events[..n], limit, window)
    ensures FullDecisions(events[..n + 1], limit, window) == FullDecisions(events[..n], limit, window)
  {
    PrefixStep(events, n, limit, window);
    SweepDecidesNothing(events[..n], events[n], limit, window);
    assert events[..n + 1] == events[..n] + [events[n]];
  }

  lemma SweepDecidesNothing(front: seq<Event>, e: Event, limit: int, window: int)
    requires e.Prune?
    ensures Decisions(front + [e], limit, window) == Decisions(front, limit, window)
    ensures FullDecisions(front + [e], limit, window) == FullDecisions(front, limit, window)
  {
    assert (front + [e])[..|front|] == front;
  }

  /** Before the hit there is nothing. */
  lemma {:induction false} BeforeHit(events: seq<Event>, n: nat, window: int)
    requires n <= |events| && forall m :: 0 <= m < n ==> events[m].Prune?
    ensures TableAfter(events[..n], 1, window) == map[] && LogAfter(events[..n], 1, window) == []
    ensures Decisions(events[..n], 1, window) == [] == FullDecisions(events[..n], 1, window)
  {
    if n > 0 {
      BeforeHit(events, n - 1, window);
      PruneSnoc(events, n - 1, 1, window);
    }
  }

  lemma FirstHit(events: seq<Event>, i: nat, window: int)
    requires i < |events| && events[i].Attempt? && forall m :: 0 <= m < i ==> events[m].Prune?
    ensures TableAfter(events[..i + 1], 1, window) == map[events[i].key := [events[i].now]]
    ensures LogAfter(events[..i + 1], 1, window) == [Admission(events[i].key, events[i].now)]
    ensures Decisions(events[..i + 1], 1, window) == [true] == FullDecisions(events[..i + 1], 1, window)
  {
    BeforeHit(events, i, window);
    assert events[..i + 1][..i] == events[..i];
    var key, now := events[i].key, events[i].now;
    assert Recent(HitsOf(map[], key), now - window) == [] == Recent(TimesOf([], key), now - window);
    assert Pruned(map[], now - window) == map[] && [] + [now] == [now];
    assert AfterAttempt(map[], key, now, 1, window) == map[][key := [] + [now]];
    assert LogStep([], events[i], 1, window) == [] + [Admission(key, now)];
  }

  /** After the hit the log keeps it, and nothing more is decided. */
  lemma {:induction false} BetweenHits(events: seq<Event>, i: nat, n: nat, window: int)
    requires i < n <= |events| && events[i].Attempt?
    requires forall m :: 0 <= m < n && m != i ==> events[m].Prune?
    ensures LogAfter(events[..n], 1, window) == [Admission(events[i].key, events[i].now)]
    ensures Decisions(events[..n], 1, window) == [true] == FullDecisions(events[..n], 1, window)
    decreases n
  {
    if n == i + 1 {
      FirstHit(events, i, window);
    } else {
      BetweenHits(events, i, n - 1, window);
      PruneSnoc(events, n - 1, 1, window);
    }
  }

  lemma RecentOne(time: int, cutoff: int)
    ensures Recent([time], cutoff) == (if time > cutoff then [time] else []) && Recent([], cutoff) == []
  {
    RecentSnoc([], time, cutoff);
    assert [] + [time] == [time];
  }

  predicate AtMost(hits: seq<int>, time: int) {
    hits == [] || hits == [time]
  }

  lemma SweptAtMost(hits: seq<int>, time: int, cutoff: int)
    requires AtMost(hits, time)
    ensures AtMost(Recent(hits, cutoff), time) && (time <= cutoff || hits == [] ==> Recent(hits, cutoff) == [])
  {
    RecentOne(time, cutoff);
  }

  /** What the table holds under the key after n events. */
  function Kept(events: seq<Event>, n: nat, window: int, key: string): seq<int>
    requires n <= |events|
  {
    HitsOf(TableAfter(events[..n], 1, window), key)
  }

  lemma SweptKept(events: seq<Event>, n: nat, window: int, key: string, time: int)
    requires n < |events| && events[n].Prune? && AtMost(Kept(events, n, window, key), time)
    ensures AtMost(Kept(events, n + 1, window, key), time)
    ensures Kept(events, n, window, key) == [] || time + window <= events[n].now ==>
            Kept(events, n + 1, window, key) == []
  {
    var hits, cutoff := TableAfter(events[..n], 1, window), events[n].now - window;
    PrefixStep(events, n, 1, window);
    PrunedAt(hits, key, cutoff);
    SweptAtMost(HitsOf(hits, key), time, cutoff);
  }

  /** Between these events there are sweeps only. */
  ghost predicate SweepsOnly(events: seq<Event>, low: int, high: int) {
    forall m :: low <= m < high && 0 <= m < |events| ==> events[m].Prune?
  }

  /** Under the key there is at most that hit. */
  lemma {:induction false} AtMostHit(events: seq<Event>, i: nat, n: nat, window: int, key: string)
    requires i < n <= |events| && AtMost(Kept(events, i + 1, window, key), events[i].now)
             && SweepsOnly(events, i + 1, n)
    ensures AtMost(Kept(events, n, window, key), events[i].now)
    decreases n
  {
    if n > i + 1 {
      AtMostHit(events, i, n - 1, window, key);
      SweptKept(events, n - 1, window, key, events[i].now);
    }
  }

  /** What a sweep has dropped stays dropped. */
  lemma {:induction false} StaysDropped(events: seq<Event>, j: nat, n: nat, window: int, key: string)
    requires j <= n <= |events| && Kept(events, j, window, key) == [] && SweepsOnly(events, j, n)
    ensures Kept(events, n, window, key) == []
    decreases n
  {
    if n > j {
      StaysDropped(events, j, n - 1, window, key);
      SweptKept(events, n - 1, window, key, 0);
    }
  }

  /** A sweep a window later or more drops it. */
  lemma AfterSweep(events: seq<Event>, i: nat, j: nat, n: nat, window: int, key: string)
    requires i < j < n <= |events| && AtMost(Kept(events, i + 1, window, key), events[i].now)
    requires SweepsOnly(events, i + 1, n) && events[i].now + window <= events[j].now
    ensures Kept(events, n, window, key) == []
  {
    AtMostHit(events, i, j, window, key);
    SweptKept(events, j, window, key, events[i].now);
    StaysDropped(events, j + 1, n, window, key);
  }

  /** The second attempt is admitted, and the full history would have refused it. */
  lemma SecondHit(events: seq<Event>, i: nat, j: nat, k: nat, window: int)
    requires i < j < k < |events| && events[i].Attempt? && events[k].Attempt? && events[k].key == events[i].key
    requires forall m :: 0 <= m < k && m != i ==> events[m].Prune?
    requires events[i].now + window <= events[j].now && events[k].now < events[i].now + window
    ensures Decisions(events[..k + 1], 1, window) == [true, true]
    ensures FullDecisions(events[..k + 1], 1, window) == [true, false]
  {
    BetweenHits(events, i, k, window);
    FirstHit(events, i, window);
    AfterSweep(events, i, j, k, window, events[i].key);
    StillLogged(Admission(events[i].key, events[i].now), events[k].now, window);
    AttemptSnoc(events, k, window);
  }

  lemma AttemptSnoc(events: seq<Event>, k: nat, window: int)
    requires k < |events| && events[k].Attempt?
    ensures var e := events[k];
            && Decisions(events[..k + 1], 1, window) ==
                 Decisions(events[..k], 1, window)
                   + [Admits(TableAfter(events[..k], 1, window), e.key, e.now, 1, window)]
            && FullDecisions(events[..k + 1], 1, window) ==
                 FullDecisions(events[..k], 1, window)
                   + [FullAdmits(LogAfter(events[..k], 1, window), e.key, e.now, 1, window)]
  {
    assert events[..k + 1][..k] == events[..k];
  }

  /** A hit within the window fills a limit of one. */
  lemma StillLogged(hit: Admission, now: int, window: int)
    requires now < hit.time + window
    ensures !FullAdmits([hit], hit.key, now, 1, window)
  {
    TimesOfSnoc([], hit, hit.key);
    assert [] + [hit] == [hit] && [] + [hit.time] == [hit.time];
    RecentOne(hit.time, now - window);
  }

  lemma {:induction false} SweepsAfter(events: seq<Event>, k: nat, n: nat, window: int)
    requires k <= n <= |events| && forall m :: k <= m < n ==> events[m].Prune?
    ensures Decisions(events[..n], 1, window) == Decisions(events[..k], 1, window)
    ensures FullDecisions(events[..n], 1, window) == FullDecisions(events[..k], 1, window)
    decreases n
  {
    if k < n {
      SweepsAfter(events, k, n - 1, window);
      PruneSnoc(events, n - 1, 1, window);
    }
  }

  /** With clocks that do not settle the limiter can admit what its full history would
      not: a sweep has dropped the key's hit by the later clock. */
  lemma ClocksMustNotGoBack(clocks: seq<int>, window: int, key: string) returns (events: seq<Event>)
    requires !Settling(clocks, window)
    ensures Clocks(events) == clocks
    ensures Decisions(events, 1, window) == [true, true] && FullDecisions(events, 1, window) == [true, false]
  {
    var i: nat, j: nat, k: nat :| i < j < k < |clocks| && Past(clocks, window, i, j) && !Past(clocks, window, i, k);
    events := Revisit(clocks, i, k, key);
    RevisitDecides(events, i, j, k, window);
  }

  lemma RevisitDecides(events: seq<Event>, i: nat, j: nat, k: nat, window: int)
    requires i < j < k < |events| && events[i].Attempt? && events[k].Attempt? && events[k].key == events[i].key
    requires forall m :: 0 <= m < |events| && m != i && m != k ==> events[m].Prune?
    requires events[i].now + window <= events[j].now && events[k].now < events[i].now + window
    ensures Decisions(events, 1, window) == [true, true] && FullDecisions(events, 1, window) == [true, false]
  {
    SecondHit(events, i, j, k, window);
    SweepsAfter(events, k + 1, |events|, window);
    assert events[..|events|] == events;
  }

  /** Decided alike whatever is attempted, swept and allowed at these clocks. */
  ghost predicate AlwaysAlike(clocks: seq<int>, window: int) {
    forall events, limit :: Clocks(events) == clocks ==>
      Decisions(events, limit, window) == FullDecisions(events, limit, window)
  }

  /** The pruning limiter is the full history's exactly over the clocks that settle. */
  lemma SettlingIsExact(clocks: seq<int>, window: int)
    ensures AlwaysAlike(clocks, window) <==> Settling(clocks, window)
  {
    if Settling(clocks, window) {
      forall events, limit | Clocks(events) == clocks
        ensures Decisions(events, limit, window) == FullDecisions(events, limit, window)
      {
        SameDecisions(events, limit, window);
      }
    } else {
      var events := ClocksMustNotGoBack(clocks, window, "");
      assert Decisions(events, 1, window) != FullDecisions(events, 1, window);
    }
  }
}
