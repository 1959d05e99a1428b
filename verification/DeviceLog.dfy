/** Device logs and the 60-second duplicate filter in front of the send. */
module DeviceLog {

  /** The ten fields two logs are compared on. */
  datatype EventKey = EventKey(policyType: int, accessType: int, recordType: int, logType: int, logAction: int,
                               disableResult: bool, processId: int, processName: string, deviceName: string, fileName: string)

  /** A device log; `id` tells apart logs whose fields agree. */
  datatype Log = Log(id: nat, key: EventKey, time: int)

  const MAX_TIME_SPAN := 60

  /** `isDuplicated`: the fields one by one. */
  predicate SameEvent(a: Log, b: Log): (r: bool)
    ensures r <==> a.key == b.key
  {
    && b.key.policyType == a.key.policyType
    && b.key.accessType == a.key.accessType
    && b.key.recordType == a.key.recordType
    && b.key.logType == a.key.logType
    && b.key.logAction == a.key.logAction
    && b.key.disableResult == a.key.disableResult
    && b.key.processId == a.key.processId
    && b.key.processName == a.key.processName
    && b.key.deviceName == a.key.deviceName
    && b.key.fileName == a.key.fileName
  }

  /** `isOutDated`, for the time span of `getMaxTimeSpan`: a log is live for 60 seconds, these included. */
  predicate OutDated(log: Log, now: int): (r: bool)
    ensures !r <==> now - log.time <= 60
  {
    now - log.time > MAX_TIME_SPAN
  }

  /** The index of the first cached log that is not outdated and duplicates `log`; the length if there is none. */
  function FirstDuplicate(cache: seq<Log>, log: Log, now: int): (r: nat)
    ensures r <= |cache|
    ensures r < |cache| ==> now - cache[r].time <= 60 && cache[r].key == log.key
    ensures forall j | 0 <= j < r :: now - cache[j].time > 60 || cache[j].key != log.key
  {
    if cache == [] then 0
    else if !OutDated(cache[0], now) && SameEvent(cache[0], log) then 0
    else 1 + FirstDuplicate(cache[1..], log, now)
  }

  /** One past the last outdated log among the first `n`. */
  function OutdatedPrefix(cache: seq<Log>, now: int, n: nat): (r: nat)
    requires n <= |cache|
    ensures r <= n
    ensures r > 0 ==> OutDated(cache[r - 1], now)
    ensures forall j | r <= j < n :: !OutDated(cache[j], now)
  {
    if n == 0 then 0 else if OutDated(cache[n - 1], now) then n else OutdatedPrefix(cache, now, n - 1)
  }

  /** One call: the answer and the cache it leaves. Only what the scan reached is considered for eviction. */
  function Filter(cache: seq<Log>, log: Log, now: int): (bool, seq<Log>) {
    var d := FirstDuplicate(cache, log, now);
    var kept := cache[OutdatedPrefix(cache, now, d)..];
    if d < |cache| then (true, kept) else (false, kept + [log])
  }

  /** `k` is one past the last log more than 60 seconds old before the first live duplicate, 0 if there is none: what
      comes after that duplicate is not looked at. */
  predicate LastOutdated(cache: seq<Log>, log: Log, now: int, k: nat) {
    && k <= FirstDuplicate(cache, log, now)
    && (k > 0 ==> now - cache[k - 1].time > 60)
    && forall j | k <= j < FirstDuplicate(cache, log, now) :: now - cache[j].time <= 60
  }

  class DeviceManager {
    var deviceLogCache: seq<Log>

    constructor ()
      ensures deviceLogCache == []
    {
      deviceLogCache := [];
    }

    /** `isDuplicatedDeviceLog` */
    method IsDuplicatedDeviceLog(log: Log, now: int) returns (result: bool)
      modifies this
      ensures (result, deviceLogCache) == Filter(old(deviceLogCache), log, now)
      ensures result <==> exists i :: 0 <= i < |old(deviceLogCache)| && old(deviceLogCache)[i].key == log.key
                                      && now - old(deviceLogCache)[i].time <= 60
      ensures exists k: nat :: LastOutdated(old(deviceLogCache), log, now, k)
                          && deviceLogCache == old(deviceLogCache)[k..] + if result then [] else [log]
    {
      result := false;
      var lastOutdated := -1;
      var index := 0;
      while index < |deviceLogCache|
        invariant deviceLogCache == old(deviceLogCache)
        invariant 0 <= index <= FirstDuplicate(deviceLogCache, log, now)
        invariant lastOutdated + 1 == OutdatedPrefix(deviceLogCache, now, index)
        invariant !result
      {
        if OutDated(deviceLogCache[index], now) {
          lastOutdated := index;
        } else if SameEvent(deviceLogCache[index], log) {
          result := true;
          break;
        }
        index := index + 1;
      }
      assert index == FirstDuplicate(deviceLogCache, log, now);
      if -1 < lastOutdated {
        deviceLogCache := if |deviceLogCache| - 1 == lastOutdated then [] else deviceLogCache[lastOutdated + 1..];
      }
      assert deviceLogCache == old(deviceLogCache)[lastOutdated + 1..];
      assert LastOutdated(old(deviceLogCache), log, now, lastOutdated + 1);
      if !result {
        deviceLogCache := deviceLogCache + [log];
      }
    }
  }

  // ---- The cache against the full history ----

  /** One call with the time at which it was made. */
  datatype Call = Call(log: Log, now: int)

  /** The cache after a run of calls, starting from the empty one. */
  function CacheAfter(calls: seq<Call>): seq<Log> {
    if calls == [] then []
    else
      var n := |calls| - 1;
      Filter(CacheAfter(calls[..n]), calls[n].log, calls[n].now).1
  }

  /** Every log accepted so far: nothing is ever forgotten. */
  function History(calls: seq<Call>): seq<Log> {
    if calls == [] then []
    else
      var n := |calls| - 1;
      if Filter(CacheAfter(calls[..n]), calls[n].log, calls[n].now).0 then History(calls[..n])
      else History(calls[..n]) + [calls[n].log]
  }

  ghost predicate TimesAscend(logs: seq<Log>) {
    forall i, j | 0 <= i < j < |logs| :: logs[i].time <= logs[j].time
  }

  /** Log times and clock readings never decrease over the run. */
  ghost predicate Chronological(calls: seq<Call>) {
    forall i, j | 0 <= i < j < |calls| :: calls[i].log.time <= calls[j].log.time && calls[i].now <= calls[j].now
  }

  /** The cache `c` is a suffix of the history `h`, and what it lacks is outdated. */
  ghost predicate Retains(h: seq<Log>, c: seq<Log>, now: int) {
    && |c| <= |h| && c == h[|h| - |c|..]
    && forall i | 0 <= i < |h| - |c| :: OutDated(h[i], now)
  }

  lemma EvictionRetains(h: seq<Log>, c: seq<Log>, now: int, n: nat)
    requires Retains(h, c, now) && TimesAscend(h) && n <= |c|
    ensures Retains(h, c[OutdatedPrefix(c, now, n)..], now)
  {
    hide OutDated;
    var cut := OutdatedPrefix(c, now, n);
    var gap := |h| - |c|;
    if cut > 0 {
      assert c[cut - 1] == h[gap + cut - 1];
    }
    assert c[cut..] == h[gap + cut..];
  }

  lemma AppendRetains(h: seq<Log>, c: seq<Log>, now: int, log: Log)
    requires Retains(h, c, now)
    ensures Retains(h + [log], c + [log], now)
  {
    assert (h + [log])[|h| - |c|..] == h[|h| - |c|..] + [log];
  }

  /** Every time in the history is at most `t`. */
  ghost predicate NoneAfter(h: seq<Log>, t: int) {
    forall i | 0 <= i < |h| :: h[i].time <= t
  }

  lemma StepFacts(h: seq<Log>, c: seq<Log>, log: Log, at: int, now: int, t: int)
    requires Retains(h, c, at) && TimesAscend(h) && NoneAfter(h, log.time) && at <= now && log.time <= t
    ensures var (duplicate, c') := Filter(c, log, at);
            var h' := if duplicate then h else h + [log];
            TimesAscend(h') && NoneAfter(h', t) && Retains(h', c', now)
  {
    hide Retains, TimesAscend, NoneAfter;
    var d := FirstDuplicate(c, log, at);
    var kept := c[OutdatedPrefix(c, at, d)..];
    EvictionRetains(h, c, at, d);
    AppendRetains(h, kept, at, log);
    RetainsLater(h, kept, at, now);
    RetainsLater(h + [log], kept + [log], at, now);
    AppendLatest(h, log, t);
  }

  lemma RetainsLater(h: seq<Log>, c: seq<Log>, at: int, now: int)
    requires Retains(h, c, at) && at <= now
    ensures Retains(h, c, now)
  {
  }

  lemma AppendLatest(h: seq<Log>, log: Log, t: int)
    requires TimesAscend(h) && NoneAfter(h, log.time) && log.time <= t
    ensures NoneAfter(h, t) && TimesAscend(h + [log]) && NoneAfter(h + [log], t)
  {
  }

  lemma {:induction false} HistoryFacts(calls: seq<Call>, now: int, t: int)
    requires Chronological(calls)
    requires calls != [] ==> calls[|calls| - 1].now <= now && calls[|calls| - 1].log.time <= t
    ensures TimesAscend(History(calls)) && NoneAfter(History(calls), t)
    ensures Retains(History(calls), CacheAfter(calls), now)
  {
    if calls != [] {
      hide Filter, Retains, TimesAscend, NoneAfter;
      var n := |calls| - 1;
      var earlier, log, at := calls[..n], calls[n].log, calls[n].now;
      assert n > 0 ==> earlier[n - 1] == calls[n - 1];
      HistoryFacts(earlier, at, log.time);
      StepFacts(History(earlier), CacheAfter(earlier), log, at, now, t);
    }
  }

  lemma SearchRetains(h: seq<Log>, c: seq<Log>, log: Log, now: int)
    requires Retains(h, c, now)
    ensures FirstDuplicate(c, log, now) < |c| <==>
            exists i :: 0 <= i < |h| && h[i].key == log.key && now - h[i].time <= 60
  {
    var d, gap := FirstDuplicate(c, log, now), |h| - |c|;
    if d < |c| {
      assert c[d] == h[gap + d];
    } else {
      forall i | 0 <= i < |h| && h[i].key == log.key
        ensures now - h[i].time > 60
      {
        assert i >= gap ==> h[i] == c[i - gap];
      }
    }
  }

  /** In a chronological run the filter answers as if it remembered everything: a log is a duplicate iff some
      log accepted earlier has the same ten fields and is at most 60 seconds old. */
  lemma CacheRefinesHistory(calls: seq<Call>, log: Log, now: int)
    requires Chronological(calls + [Call(log, now)])
    ensures Filter(CacheAfter(calls), log, now).0 <==>
            exists i :: 0 <= i < |History(calls)| && History(calls)[i].key == log.key
                        && now - History(calls)[i].time <= 60
  {
    var all := calls + [Call(log, now)];
    assert forall i | 0 <= i < |calls| :: all[i] == calls[i];
    assert all[|calls|] == Call(log, now);
    HistoryFacts(calls, now, log.time);
    SearchRetains(History(calls), CacheAfter(calls), log, now);
  }

  /** Eviction loses no live log exactly when, in the scanned part, no live log precedes an outdated one. */
  lemma EvictionExact(cache: seq<Log>, log: Log, now: int)
    ensures var d := FirstDuplicate(cache, log, now);
            (forall i | 0 <= i < OutdatedPrefix(cache, now, d) :: OutDated(cache[i], now)) <==>
            (forall i, j | 0 <= i < j < d && OutDated(cache[j], now) :: OutDated(cache[i], now))
  {
    var d := FirstDuplicate(cache, log, now);
    var cut := OutdatedPrefix(cache, now, d);
    if forall i, j | 0 <= i < j < d && OutDated(cache[j], now) :: OutDated(cache[i], now) {
      if cut > 0 {
        assert OutDated(cache[cut - 1], now);
      }
    }
  }
}
