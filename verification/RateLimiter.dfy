/** internal/pindoc/auth/dcr.go: the sliding-window limiter on client registration.
    Times and durations are nanoseconds. */
module RateLimiter {
  import opened Strings

  /** The hits after the cutoff, in order. */
  function Recent(hits: seq<int>, cutoff: int): (r: seq<int>)
    ensures |r| <= |hits|
  {
    if hits == [] then []
    else
      var n := |hits| - 1;
      if hits[n] > cutoff then Recent(hits[..n], cutoff) + [hits[n]] else Recent(hits[..n], cutoff)
  }

  /** The compaction loop `recent := hits[:0]; ... append(recent, hit)`: it writes into
      the very array it reads, always behind the reader. */
  method Compact(hits: array<int>, cutoff: int) returns (kept: nat)
    modifies hits
    ensures kept <= hits.Length && hits[..kept] == Recent(old(hits[..]), cutoff)
  {
    kept := 0;
    for i := 0 to hits.Length
      invariant kept <= i && hits[..kept] == Recent(old(hits[..i]), cutoff)
      invariant forall k :: i <= k < hits.Length ==> hits[k] == old(hits[k])
    {
      ghost var before := hits[..kept];
      assert old(hits[..i + 1])[..i] == old(hits[..i]);
      if hits[i] > cutoff {
        hits[kept] := hits[i];
        kept := kept + 1;
        assert hits[..kept] == before + [old(hits[i])];
      }
    }
    assert old(hits[..hits.Length]) == old(hits[..]);
  }

  type Hits = map<string, seq<int>>

  function HitsOf(hits: Hits, key: string): seq<int> {
    if key in hits then hits[key] else []
  }

  /** Every key's recent hits; keys without any are gone. */
  function Pruned(hits: Hits, cutoff: int): Hits {
    map key | key in hits && Recent(hits[key], cutoff) != [] :: Recent(hits[key], cutoff)
  }

  /** The key a caller's address counts under. */
  function KeyFor(address: string): string {
    if TrimSpace(address) == "" then "unknown" else TrimSpace(address)
  }

  predicate Admits(hits: Hits, key: string, now: int, limit: int, window: int) {
    |Recent(HitsOf(hits, key), now - window)| < limit
  }

  /** The table after an attempt. */
  function AfterAttempt(hits: Hits, key: string, now: int, limit: int, window: int): Hits {
    var pruned := Pruned(hits, now - window);
    if Admits(hits, key, now, limit, window) then pruned[key := Recent(HitsOf(hits, key), now - window) + [now]]
      else pruned
  }

  lemma RecentSnoc(hits: seq<int>, hit: int, cutoff: int)
    ensures Recent(hits + [hit], cutoff) == if hit > cutoff then Recent(hits, cutoff) + [hit] else Recent(hits, cutoff)
  {
    assert (hits + [hit])[..|hits|] == hits;
  }

  lemma {:induction false} RecentRecent(hits: seq<int>, early: int, late: int)
    requires early <= late
    ensures Recent(Recent(hits, early), late) == Recent(hits, late)
  {
    if hits != [] {
      var n := |hits| - 1;
      var front := Recent(hits[..n], early);
      RecentRecent(hits[..n], early, late);
      RecentSnoc(front, hits[n], late);
    }
  }

  /** What pruning leaves under one key. */
  lemma PrunedAt(hits: Hits, key: string, cutoff: int)
    ensures var p, recent := Pruned(hits, cutoff), Recent(HitsOf(hits, key), cutoff);
            && HitsOf(p, key) == recent == Recent(recent, cutoff)
            && (recent == [] ==> p - {key} == p)
            && (recent != [] ==> p[key := recent] == p)
  {
    RecentRecent(HitsOf(hits, key), cutoff, cutoff);
  }

  lemma AttemptTable(hits: Hits, key: string, now: int, limit: int, window: int, recent: seq<int>)
    requires recent == Recent(HitsOf(hits, key), now - window)
    ensures var p := Pruned(hits, now - window);
            AfterAttempt(hits, key, now, limit, window) == if |recent| < limit then p[key := recent + [now]] else p
  {
  }

  class Limiter {
    var hits: Hits

    constructor ()
      ensures hits == map[]
    {
      hits := map[];
    }

    /** Go iterates over the map in any order, deleting as it goes. */
    method PruneExpiredLocked(cutoff: int) returns (pruned: nat)
      modifies this
      ensures hits == Pruned(old(hits), cutoff)
      ensures pruned == |old(hits)| - |hits|
    {
      var todo := hits.Keys;
      pruned := 0;
      while todo != {}
        invariant todo <= hits.Keys <= old(hits).Keys
        invariant forall key :: key in hits && key in todo ==> hits[key] == old(hits)[key]
        invariant forall key :: key in old(hits) && key !in todo ==>
                    (key in hits <==> Recent(old(hits)[key], cutoff) != [])
                      && (key in hits ==> hits[key] == Recent(old(hits)[key], cutoff))
        invariant pruned == |old(hits).Keys| - |hits.Keys|
        decreases todo
      {
        var key :| key in todo;
        todo := todo - {key};
        var recent := Recent(hits[key], cutoff);
        if |recent| == 0 {
          assert (hits - {key}).Keys == hits.Keys - {key};
          hits := hits - {key};
          pruned := pruned + 1;
        } else {
          assert hits[key := recent].Keys == hits.Keys;
          hits := hits[key := recent];
        }
      }
      assert |old(hits)| == |old(hits).Keys| && |hits| == |hits.Keys|;
    }

    method Allow(address: string, now: int, limit: int, window: int) returns (ok: bool)
      modifies this
      ensures limit <= 0 || window <= 0 ==> ok && hits == old(hits)
      ensures limit > 0 && window > 0 ==>
                ok == Admits(old(hits), KeyFor(address), now, limit, window)
                && hits == AfterAttempt(old(hits), KeyFor(address), now, limit, window)
    {
      if limit <= 0 || window <= 0 {
        return true;
      }
      var key := TrimSpace(address);
      if key == "" {
        key := "unknown";
      }
      var cutoff := now - window;
      var _ := PruneExpiredLocked(cutoff);
      ghost var pruned := hits;
      PrunedAt(old(hits), key, cutoff);
      var recent := Recent(HitsOf(hits, key), cutoff);
      if |recent| == 0 {
        hits := hits - {key};
      }
      assert hits == pruned;
      AttemptTable(old(hits), key, now, limit, window, recent);
      if |recent| >= limit {
        hits := hits[key := recent];
        assert hits == pruned;
        return false;
      }
      recent := recent + [now];
      hits := hits[key := recent];
      return true;
    }

    method PruneExpired(now: int, window: int) returns (pruned: nat)
      modifies this
      ensures hits == if window <= 0 then old(hits) else Pruned(old(hits), now - window)
      ensures pruned == |old(hits)| - |hits|
    {
      if window <= 0 {
        return 0;
      }
      pruned := PruneExpiredLocked(now - window);
    }
  }

  // ----- whole runs ---------------------------------------------------------------------

  datatype Event = Attempt(key: string, now: int) | Prune(now: int)

  /** One limiter, one limit, one window. */
  function TableAfter(events: seq<Event>, limit: int, window: int): Hits {
    if events == [] then map[]
    else
      var n := |events| - 1;
      var before := TableAfter(events[..n], limit, window);
      TableStep(before, events[n], limit, window)
  }

  function TableStep(hits: Hits, e: Event, limit: int, window: int): Hits {
    match e
    case Attempt(key, now) => AfterAttempt(hits, key, now, limit, window)
    case Prune(now) => Pruned(hits, now - window)
  }

  /** Whether each attempt was admitted. */
  function Decisions(events: seq<Event>, limit: int, window: int): seq<bool> {
    if events == [] then []
    else
      var n := |events| - 1;
      var before := Decisions(events[..n], limit, window);
      match events[n]
      case Attempt(key, now) => before + [Admits(TableAfter(events[..n], limit, window), key, now, limit, window)]
      case Prune(_) => before
  }

  /** The limiter that forgets nothing: all admissions so far. */
  datatype Admission = Admission(key: string, time: int)

  function TimesOf(log: seq<Admission>, key: string): seq<int> {
    if log == [] then []
    else
      var n := |log| - 1;
      if log[n].key == key then TimesOf(log[..n], key) + [log[n].time] else TimesOf(log[..n], key)
  }

  lemma TimesOfSnoc(log: seq<Admission>, a: Admission, key: string)
    ensures TimesOf(log + [a], key) == if a.key == key then TimesOf(log, key) + [a.time] else TimesOf(log, key)
  {
    assert (log + [a])[..|log|] == log;
  }

  predicate FullAdmits(log: seq<Admission>, key: string, now: int, limit: int, window: int) {
    |Recent(TimesOf(log, key), now - window)| < limit
  }

  function LogAfter(events: seq<Event>, limit: int, window: int): seq<Admission> {
    if events == [] then []
    else
      var n := |events| - 1;
      var before := LogAfter(events[..n], limit, window);
      LogStep(before, events[n], limit, window)
  }

  function LogStep(log: seq<Admission>, e: Event, limit: int, window: int): seq<Admission> {
    if e.Attempt? && FullAdmits(log, e.key, e.now, limit, window) then log + [Admission(e.key, e.now)] else log
  }

  function FullDecisions(events: seq<Event>, limit: int, window: int): seq<bool> {
    if events == [] then []
    else
      var n := |events| - 1;
      var before := FullDecisions(events[..n], limit, window);
      match events[n]
      case Attempt(key, now) => before + [FullAdmits(LogAfter(events[..n], limit, window), key, now, limit, window)]
      case Prune(_) => before
  }

  /** No run leaves an empty entry, whatever its clocks. */
  lemma {:induction false} NoEmptyEntries(events: seq<Event>, limit: int, window: int)
    ensures forall key :: key in TableAfter(events, limit, window) ==> TableAfter(events, limit, window)[key] != []
  {
    if events != [] {
      NoEmptyEntries(events[..|events| - 1], limit, window);
    }
  }

  // ----- addresses -----------------------------------------------------------------------

  /** Addresses are told apart by their text without the white space around it; blank ones
      and "unknown" count together. */
  lemma KeysOf(a: string, b: string)
    ensures KeyFor(a) == KeyFor(b) <==>
            || TrimSpace(a) == TrimSpace(b)
            || ((Blank(a) || TrimSpace(a) == "unknown") && (Blank(b) || TrimSpace(b) == "unknown"))
    ensures Blank(a) ==> KeyFor(a) == "unknown"
    ensures !Blank(a) ==> KeyFor(a) == TrimSpace(a)
  {
    TrimSpaceBlank(a);
    TrimSpaceBlank(b);
  }

  lemma OtherKey(hits: Hits, key: string, other: string, now: int, limit: int, window: int)
    requires key != other
    ensures HitsOf(AfterAttempt(hits, other, now, limit, window), key) == Recent(HitsOf(hits, key), now - window)
  {
    AttemptTable(hits, other, now, limit, window, Recent(HitsOf(hits, other), now - window));
    PrunedAt(hits, key, now - window);
  }

  /** An attempt from another address decides nothing for this one. */
  lemma OtherAddress(hits: Hits, a: string, b: string, now: int, later: int, limit: int, window: int)
    requires KeyFor(a) != KeyFor(b) && now <= later
    ensures Admits(AfterAttempt(hits, KeyFor(b), now, limit, window), KeyFor(a), later, limit, window) ==
            Admits(hits, KeyFor(a), later, limit, window)
  {
    OtherKey(hits, KeyFor(a), KeyFor(b), now, limit, window);
    RecentRecent(HitsOf(hits, KeyFor(a)), now - window, later - window);
  }

  /** The hits that count: those after the cutoff, each as often as it was recorded. */
  lemma {:induction false} RecentMeans(hits: seq<int>, cutoff: int, t: int)
    ensures multiset(Recent(hits, cutoff))[t] == if t > cutoff then multiset(hits)[t] else 0
  {
    if hits != [] {
      var n := |hits| - 1;
      RecentMeans(hits[..n], cutoff, t);
      assert hits == hits[..n] + [hits[n]];
    }
  }

  lemma {:induction false} AllRecent(times: seq<int>, now: int, window: int)
    requires window > 0 && forall i :: 0 <= i < |times| ==> times[i] == now
    ensures Recent(times, now - window) == times
  {
    if times != [] {
      AllRecent(times[..|times| - 1], now, window);
      assert times == times[..|times| - 1] + [times[|times| - 1]];
    }
  }

  /** At one moment an address is admitted limit times, and then no more. */
  lemma AdmittedUpTo(hits: Hits, address: string, now: int, limit: int, window: int)
    requires window > 0 && forall i :: 0 <= i < |HitsOf(hits, KeyFor(address))| ==>
             HitsOf(hits, KeyFor(address))[i] == now
    ensures Admits(hits, KeyFor(address), now, limit, window) <==> |HitsOf(hits, KeyFor(address))| < limit
    ensures Admits(hits, KeyFor(address), now, limit, window) ==>
            HitsOf(AfterAttempt(hits, KeyFor(address), now, limit, window), KeyFor(address)) ==
            HitsOf(hits, KeyFor(address)) + [now]
  {
    AllRecent(HitsOf(hits, KeyFor(address)), now, window);
  }
}
