/** The limiter's promise itself, at most limit admissions of a key in a window, and the
    clocks that let it be kept. */
module LimiterBound {
  import opened RateLimiter
  import opened LimiterClocks

  /** Admissions of a key after low, up to high. */
  function CountIn(log: seq<Admission>, key: string, low: int, high: int): nat {
    if log == [] then 0
    else
      var n := |log| - 1;
      CountIn(log[..n], key, low, high) + (if log[n].key == key && low < log[n].time <= high then 1 else 0)
  }

  /** What the pruning limiter admitted. */
  function Admitted(events: seq<Event>, limit: int, window: int): seq<Admission> {
    if events == [] then []
    else
      var n := |events| - 1;
      var before, e := Admitted(events[..n], limit, window), events[n];
      if e.Attempt? && Admits(TableAfter(events[..n], limit, window), e.key, e.now, limit, window) then
        before + [Admission(e.key, e.now)] else before
  }

  /** How many hits are after low and up to high. */
  function NumIn(hits: seq<int>, low: int, high: int): nat {
    if hits == [] then 0
    else
      var n := |hits| - 1;
      NumIn(hits[..n], low, high) + (if low < hits[n] <= high then 1 else 0)
  }

  lemma NumInSnoc(hits: seq<int>, hit: int, low: int, high: int)
    ensures NumIn(hits + [hit], low, high) == NumIn(hits, low, high) + (if low < hit <= high then 1 else 0)
  {
    assert (hits + [hit])[..|hits|] == hits;
  }

  lemma {:induction false} NumInRecent(hits: seq<int>, cutoff: int, low: int, high: int)
    ensures low >= cutoff ==> NumIn(hits, low, high) <= |Recent(hits, cutoff)|
    ensures SparesIn(hits, cutoff, low, high) ==> NumIn(Recent(hits, cutoff), low, high) == NumIn(hits, low, high)
  {
    if hits != [] {
      var n := |hits| - 1;
      NumInRecent(hits[..n], cutoff, low, high);
      NumInSnoc(Recent(hits[..n], cutoff), hits[n], low, high);
      assert forall m :: 0 <= m < n ==> hits[..n][m] == hits[m];
    }
  }

  lemma {:induction false} RecentMembers(hits: seq<int>, cutoff: int, m: nat)
    requires m < |Recent(hits, cutoff)|
    ensures Recent(hits, cutoff)[m] in hits
  {
    var n := |hits| - 1;
    assert hits == hits[..n] + [hits[n]];
    if m < |Recent(hits[..n], cutoff)| {
      RecentMembers(hits[..n], cutoff, m);
    }
  }

  /** A hit in the table carries the clock of an earlier event. */
  ghost predicate FromClocks(hits: seq<int>, events: seq<Event>, n: nat) {
    forall m :: 0 <= m < |hits| ==> exists i :: 0 <= i < n && i < |events| && events[i].now == hits[m]
  }

  lemma {:induction false} TableClocks(events: seq<Event>, n: nat, limit: int, window: int, key: string)
    requires n <= |events|
    ensures FromClocks(HitsOf(TableAfter(events[..n], limit, window), key), events, n)
    decreases n
  {
    if n > 0 {
      TableClocks(events, n - 1, limit, window, key);
      PrefixStep(events, n - 1, limit, window);
      StepClocks(TableAfter(events[..n - 1], limit, window), events, n - 1, limit, window, key);
    }
  }

  lemma StepClocks(hits: Hits, events: seq<Event>, n: nat, limit: int, window: int, key: string)
    requires n < |events| && FromClocks(HitsOf(hits, key), events, n)
    ensures FromClocks(HitsOf(TableStep(hits, events[n], limit, window), key), events, n + 1)
  {
    var cutoff := events[n].now - window;
    var old', new' := HitsOf(hits, key), HitsOf(TableStep(hits, events[n], limit, window), key);
    PrunedAt(hits, key, cutoff);
    var swept := Recent(old', cutoff);
    assert new' == swept || new' == swept + [events[n].now];
    forall m | 0 <= m < |new'| ensures exists i :: 0 <= i < n + 1 && i < |events| && events[i].now == new'[m] {
      if m < |swept| {
        RecentMembers(old', cutoff, m);
        var m' :| 0 <= m' < |old'| && old'[m'] == swept[m];
        var i :| 0 <= i < n && events[i].now == old'[m'];
      } else {
        assert events[n].now == new'[m];
      }
    }
  }

  /** Two readings less than a window apart. */
  predicate Near(clocks: seq<int>, window: int, i: nat, k: nat)
    requires i < |clocks| && k < |clocks|
  {
    -window < clocks[k] - clocks[i] < window
  }

  /** Once a clock is a window past a reading, no later one comes near that reading. */
  ghost predicate Tight(clocks: seq<int>, window: int) {
    forall i: nat, j: nat, k: nat :: i < j < k < |clocks| && Past(clocks, window, i, j) ==> !Near(clocks, window, i, k)
  }

  lemma SettlingIsTight(clocks: seq<int>, window: int)
    requires Settling(clocks, window)
    ensures Tight(clocks, window)
  {
    forall i: nat, j: nat, k: nat | i < j < k < |clocks| && Past(clocks, window, i, j)
      ensures !Near(clocks, window, i, k) {
      assert Past(clocks, window, i, k);
    }
  }

  /** A sweep with this cutoff drops none of the hits in the interval. */
  ghost predicate SparesIn(hits: seq<int>, cutoff: int, low: int, high: int) {
    forall m :: 0 <= m < |hits| && low < hits[m] <= high ==> hits[m] > cutoff
  }

  /** No event before k sweeps a hit that an interval of event k's may share with it. */
  lemma SweepsMiss(events: seq<Event>, j: nat, k: nat, limit: int, window: int, key: string, high: int)
    requires j < k < |events| && Tight(Clocks(events), window) && high - window < events[k].now <= high
    ensures SparesIn(HitsOf(TableAfter(events[..j], limit, window), key), events[j].now - window, high - window, high)
  {
    var hits := HitsOf(TableAfter(events[..j], limit, window), key);
    TableClocks(events, j, limit, window, key);
    forall m | 0 <= m < |hits| && high - window < hits[m] <= high ensures hits[m] > events[j].now - window {
      var i :| 0 <= i < j && i < |events| && events[i].now == hits[m];
      assert Near(Clocks(events), window, i, k);
      assert !Past(Clocks(events), window, i, j);
    }
  }

  /** What an event adds to the admissions of a key in an interval. */
  function Added(hits: Hits, e: Event, limit: int, window: int, key: string, low: int, high: int): nat {
    if e.Attempt? && e.key == key && Admits(hits, key, e.now, limit, window) && low < e.now <= high then 1 else 0
  }

  lemma CountInSnoc(log: seq<Admission>, a: Admission, key: string, low: int, high: int)
    ensures CountIn(log + [a], key, low, high) ==
            CountIn(log, key, low, high) + (if a.key == key && low < a.time <= high then 1 else 0)
  {
    assert (log + [a])[..|log|] == log;
  }

  lemma AdmittedNext(events: seq<Event>, n: nat, limit: int, window: int)
    requires n < |events|
    ensures var before, after := Admitted(events[..n], limit, window), Admitted(events[..n + 1], limit, window);
            match events[n]
            case Attempt(key, now) =>
              after == if Admits(TableAfter(events[..n], limit, window), key, now, limit, window)
                       then before + [Admission(key, now)] else before
            case Prune(_) => after == before
  {
    assert events[..n + 1][..n] == events[..n];
  }

  lemma CountNext(events: seq<Event>, n: nat, limit: int, window: int, key: string, low: int, high: int)
    requires n < |events|
    ensures CountIn(Admitted(events[..n + 1], limit, window), key, low, high) ==
            CountIn(Admitted(events[..n], limit, window), key, low, high)
              + Added(TableAfter(events[..n], limit, window), events[n], limit, window, key, low, high)
  {
    AdmittedNext(events, n, limit, window);
    if events[n].Attempt? {
      CountInSnoc(Admitted(events[..n], limit, window), Admission(events[n].key, events[n].now), key, low, high);
    }
  }

  /** The table's hits in an interval it sweeps none from grow alike. */
  lemma StepIn(hits: Hits, e: Event, limit: int, window: int, key: string, low: int, high: int)
    requires SparesIn(HitsOf(hits, key), e.now - window, low, high)
    ensures NumIn(HitsOf(TableStep(hits, e, limit, window), key), low, high) ==
            NumIn(HitsOf(hits, key), low, high) + Added(hits, e, limit, window, key, low, high)
  {
    var cutoff := e.now - window;
    PrunedAt(hits, key, cutoff);
    NumInRecent(HitsOf(hits, key), cutoff, low, high);
    NumInSnoc(Recent(HitsOf(hits, key), cutoff), e.now, low, high);
  }

  lemma NumNext(events: seq<Event>, j: nat, limit: int, window: int, key: string, low: int, high: int)
    requires j < |events|
    requires SparesIn(HitsOf(TableAfter(events[..j], limit, window), key), events[j].now - window, low, high)
    ensures NumIn(HitsOf(TableAfter(events[..j + 1], limit, window), key), low, high) ==
            NumIn(HitsOf(TableAfter(events[..j], limit, window), key), low, high)
              + Added(TableAfter(events[..j], limit, window), events[j], limit, window, key, low, high)
  {
    PrefixStep(events, j, limit, window);
    StepIn(TableAfter(events[..j], limit, window), events[j], limit, window, key, low, high);
  }

  /** The table after n events holds every admission so far in the interval. */
  ghost predicate KeepsAll(events: seq<Event>, n: nat, limit: int, window: int, key: string, low: int, high: int)
    requires n <= |events|
  {
    NumIn(HitsOf(TableAfter(events[..n], limit, window), key), low, high) ==
      CountIn(Admitted(events[..n], limit, window), key, low, high)
  }

  lemma KeepsNext(events: seq<Event>, j: nat, limit: int, window: int, key: string, low: int, high: int)
    requires j < |events| && KeepsAll(events, j, limit, window, key, low, high)
    requires SparesIn(HitsOf(TableAfter(events[..j], limit, window), key), events[j].now - window, low, high)
    ensures KeepsAll(events, j + 1, limit, window, key, low, high)
  {
    NumNext(events, j, limit, window, key, low, high);
    CountNext(events, j, limit, window, key, low, high);
  }

  /** Up to event k it does, for an interval that event k falls in. */
  lemma {:induction false} KeptInWindow(events: seq<Event>, n: nat, k: nat, limit: int, window: int, key: string,
      high: int)
    requires n <= k < |events| && Tight(Clocks(events), window) && high - window < events[k].now <= high
    ensures KeepsAll(events, n, limit, window, key, high - window, high)
    decreases n
  {
    if n > 0 {
      KeptInWindow(events, n - 1, k, limit, window, key, high);
      SweepsMiss(events, n - 1, k, limit, window, key, high);
      KeepsNext(events, n - 1, limit, window, key, high - window, high);
    }
  }

  ghost predicate Bounded(events: seq<Event>, limit: int, window: int, key: string, t: int) {
    CountIn(Admitted(events, limit, window), key, t - window, t) <= limit
  }

  lemma {:induction false} PrefixBound(events: seq<Event>, n: nat, limit: int, window: int, key: string, t: int)
    requires n <= |events| && Tight(Clocks(events), window) && limit > 0
    ensures Bounded(events[..n], limit, window, key, t)
    decreases n
  {
    if n > 0 {
      PrefixBound(events, n - 1, limit, window, key, t);
      NextBound(events, n - 1, limit, window, key, t);
    }
  }

  lemma NextBound(events: seq<Event>, k: nat, limit: int, window: int, key: string, t: int)
    requires k < |events| && Tight(Clocks(events), window) && Bounded(events[..k], limit, window, key, t)
    ensures Bounded(events[..k + 1], limit, window, key, t)
  {
    var hits, e := TableAfter(events[..k], limit, window), events[k];
    CountNext(events, k, limit, window, key, t - window, t);
    if Added(hits, e, limit, window, key, t - window, t) == 1 {
      KeptInWindow(events, k, k, limit, window, key, t);
      AddedHasRoom(hits, e, limit, window, key, t);
    }
  }

  lemma AddedHasRoom(hits: Hits, e: Event, limit: int, window: int, key: string, t: int)
    requires Added(hits, e, limit, window, key, t - window, t) == 1
    ensures NumIn(HitsOf(hits, key), t - window, t) < limit
  {
    NumInRecent(HitsOf(hits, key), e.now - window, t - window, t);
  }

  /** In no half-open interval of one window's length is a key admitted more than limit times. */
  lemma WindowBound(events: seq<Event>, limit: int, window: int, key: string, t: int)
    requires Tight(Clocks(events), window) && limit > 0
    ensures Bounded(events, limit, window, key, t)
  {
    PrefixBound(events, |events|, limit, window, key, t);
    assert events[..|events|] == events;
  }

  // ----- exactly which clocks keep the bound ------------------------------------------------

  lemma {:induction false} SweepsAdmitNone(events: seq<Event>, low: nat, n: nat, window: int)
    requires low <= n <= |events| && SweepsOnly(events, low, n)
    ensures Admitted(events[..n], 1, window) == Admitted(events[..low], 1, window)
    decreases n
  {
    if n > low {
      SweepsAdmitNone(events, low, n - 1, window);
      AdmittedNext(events, n - 1, 1, window);
    }
  }

  lemma RevisitAdmits(events: seq<Event>, i: nat, j: nat, k: nat, window: int, key: string)
    requires i < j < k < |events| && events[i] == Attempt(key, events[i].now)
             && events[k] == Attempt(key, events[k].now)
    requires SweepsOnly(events, 0, i) && SweepsOnly(events, i + 1, k) && SweepsOnly(events, k + 1, |events|)
    requires events[i].now + window <= events[j].now
    ensures Admitted(events, 1, window) == [Admission(key, events[i].now), Admission(key, events[k].now)]
  {
    FirstAdmission(events, i, window, key);
    SweepsAdmitNone(events, i + 1, k, window);
    AfterSweep(events, i, j, k, window, key);
    EmptyAdmits(events, k, window, key);
    SweepsAdmitNone(events, k + 1, |events|, window);
    WholePrefix(events);
  }

  lemma WholePrefix(events: seq<Event>)
    ensures events[..|events|] == events
  {
  }

  lemma EmptyAdmits(events: seq<Event>, k: nat, window: int, key: string)
    requires k < |events| && events[k] == Attempt(key, events[k].now) && Kept(events, k, window, key) == []
    ensures Admitted(events[..k + 1], 1, window) == Admitted(events[..k], 1, window) + [Admission(key, events[k].now)]
  {
    AdmittedNext(events, k, 1, window);
    assert Recent([], events[k].now - window) == [];
  }

  lemma FirstAdmission(events: seq<Event>, i: nat, window: int, key: string)
    requires i < |events| && events[i] == Attempt(key, events[i].now) && SweepsOnly(events, 0, i)
    ensures Admitted(events[..i + 1], 1, window) == [Admission(key, events[i].now)]
    ensures AtMost(Kept(events, i + 1, window, key), events[i].now)
  {
    BeforeHit(events, i, window);
    FirstHit(events, i, window);
    SweepsAdmitNone(events, 0, i, window);
    EmptyAdmits(events, i, window, key);
    assert events[..0] == [] && Admitted([], 1, window) == [];
    assert [] + [Admission(key, events[i].now)] == [Admission(key, events[i].now)];
  }

  lemma TwoIn(key: string, a: int, b: int, low: int, high: int)
    requires low < a <= high && low < b <= high
    ensures CountIn([Admission(key, a), Admission(key, b)], key, low, high) == 2
  {
    CountInSnoc([], Admission(key, a), key, low, high);
    CountInSnoc([Admission(key, a)], Admission(key, b), key, low, high);
    assert [] + [Admission(key, a)] == [Admission(key, a)];
    assert [Admission(key, a)] + [Admission(key, b)] == [Admission(key, a), Admission(key, b)];
  }

  /** With other clocks the limiter can admit more: a hit swept by a later clock, and another one near it. */
  lemma OtherClocksOverrun(clocks: seq<int>, window: int, key: string) returns (events: seq<Event>, t: int)
    requires !Tight(clocks, window)
    ensures Clocks(events) == clocks && CountIn(Admitted(events, 1, window), key, t - window, t) == 2
  {
    var i: nat, j: nat, k: nat :| i < j < k < |clocks| && Past(clocks, window, i, j) && Near(clocks, window, i, k);
    events := Revisit(clocks, i, k, key);
    t := if clocks[i] < clocks[k] then clocks[k] else clocks[i];
    RevisitOverruns(events, i, j, k, window, key, t);
  }

  lemma RevisitOverruns(events: seq<Event>, i: nat, j: nat, k: nat, window: int, key: string, t: int)
    requires i < j < k < |events| && events[i] == Attempt(key, events[i].now)
             && events[k] == Attempt(key, events[k].now)
    requires forall m :: 0 <= m < |events| && m != i && m != k ==> events[m].Prune?
    requires events[i].now + window <= events[j].now
    requires t - window < events[i].now <= t && t - window < events[k].now <= t
    ensures CountIn(Admitted(events, 1, window), key, t - window, t) == 2
  {
    RevisitAdmits(events, i, j, k, window, key);
    TwoIn(key, events[i].now, events[k].now, t - window, t);
  }

  /** The bound holds of whatever is attempted, swept and allowed at these clocks. */
  ghost predicate AlwaysBounded(clocks: seq<int>, window: int) {
    forall events, limit, key, t :: Clocks(events) == clocks && limit > 0 ==> Bounded(events, limit, window, key, t)
  }

  /** The limiter keeps its bound exactly over the clocks that are tight. */
  lemma TightIsExact(clocks: seq<int>, window: int)
    ensures AlwaysBounded(clocks, window) <==> Tight(clocks, window)
  {
    if Tight(clocks, window) {
      forall events, limit, key, t | Clocks(events) == clocks && limit > 0
        ensures Bounded(events, limit, window, key, t)
      {
        WindowBound(events, limit, window, key, t);
      }
    } else {
      var events, t := OtherClocksOverrun(clocks, window, "");
      assert !Bounded(events, 1, window, "", t);
    }
  }
}
