/** data/integrity.py: the in-process cache in front of `load_suspend_intervals`. */
module SuspensionCache {
  import opened Wrappers
  import opened Suspension
  import SuspensionMeaning

  /** What `stat` reveals of a file: resolved path, modification time and size. */
  datatype Stamp = Stamp(path: int, mtime: int, size: int)
  datatype Key = Key(stamp: Stamp, days: set<int>)

  /** One call: the file as `stat` shows it (None: no such file), what it really holds now,
      and the trade days asked for. */
  datatype Request = Request(stamp: Option<Stamp>, file: seq<Event>, days: set<int>)

  const CACHE_MAX: nat := 8

  /** Per cached key, the file content that the stored answer was computed from. */
  type Origins = map<Key, seq<Event>>

  function After(origins: Origins, rq: Request): Origins {
    if rq.stamp.None? then origins
    else
      var key := Key(rq.stamp.value, rq.days);
      if key in origins then origins
      else (if |origins| >= CACHE_MAX then map[] else origins)[key := rq.file]
  }

  /** The content that answers the request. */
  function Answering(origins: Origins, rq: Request): seq<Event> {
    if rq.stamp.Some? && Key(rq.stamp.value, rq.days) in origins then origins[Key(rq.stamp.value, rq.days)]
    else rq.file
  }

  /** The uncached answer; a missing file has no suspensions. */
  ghost function Fresh(rq: Request, file: seq<Event>): Intervals {
    if rq.stamp.None? then map[] else SuspensionMap(file, rq.days)
  }

  class Cache {
    var stored: map<Key, Intervals>
    ghost var origins: Origins

    ghost predicate Valid()
      reads this
    {
      && stored.Keys == origins.Keys
      && |origins| <= CACHE_MAX
      && forall k | k in stored :: stored[k] == SuspensionMap(origins[k], k.days)
    }

    constructor ()
      ensures Valid() && origins == map[]
    {
      stored, origins := map[], map[];
    }

    method Load(rq: Request) returns (intervals: Intervals)
      requires Valid()
      modifies this
      ensures Valid()
      ensures origins == After(old(origins), rq)
      ensures intervals == Fresh(rq, Answering(old(origins), rq))
      ensures rq.stamp.None? ==> intervals == map[] && origins == old(origins)
    {
      hide SuspensionMap;
      if rq.stamp.None? {
        return map[];
      }
      var key := Key(rq.stamp.value, rq.days);
      if key in stored {
        return stored[key];
      }
      intervals := LoadSuspendIntervals(rq.file, rq.days);
      assert |stored.Keys| == |origins.Keys|;
      if |stored| >= CACHE_MAX {
        stored, origins := map[], map[];
      }
      stored := stored[key := intervals];
      origins := origins[key := rq.file];
    }
  }

  // ---- whole runs ----------------------------------------------------------------------------

  function AfterAll(rqs: seq<Request>, n: nat): Origins
    requires n <= |rqs|
  {
    if n == 0 then map[] else After(AfterAll(rqs, n - 1), rqs[n - 1])
  }

  /** Two calls that see the same path, time and size find the same content. */
  ghost predicate StampsDetermineContent(rqs: seq<Request>) {
    forall i, j | 0 <= i < |rqs| && 0 <= j < |rqs| && rqs[i].stamp.Some? && rqs[i].stamp == rqs[j].stamp ::
      rqs[i].file == rqs[j].file
  }

  /** Every stored answer came from an earlier call with that key, and at most eight are kept. */
  lemma {:induction false} StoredCameFromACall(rqs: seq<Request>, n: nat, k: Key)
    requires n <= |rqs|
    ensures |AfterAll(rqs, n)| <= CACHE_MAX
    ensures k in AfterAll(rqs, n) ==>
              exists i :: 0 <= i < n && rqs[i].stamp == Some(k.stamp) && rqs[i].days == k.days &&
                          rqs[i].file == AfterAll(rqs, n)[k]
  {
    if n > 0 {
      StoredCameFromACall(rqs, n - 1, k);
      var before, rq := AfterAll(rqs, n - 1), rqs[n - 1];
      if k in AfterAll(rqs, n) && k !in before {
        assert rq.stamp == Some(k.stamp) && rq.days == k.days;
      }
    }
  }

  /** The keys that the first n requests ask for. */
  ghost function Asked(rqs: seq<Request>, n: nat): set<Key>
    requires n <= |rqs|
  {
    set i | 0 <= i < n && rqs[i].stamp.Some? :: Key(rqs[i].stamp.value, rqs[i].days)
  }

  function KeyOf(rq: Request): set<Key> {
    if rq.stamp.Some? then {Key(rq.stamp.value, rq.days)} else {}
  }

  lemma {:induction false} AskedGrows(rqs: seq<Request>, n: nat)
    requires n < |rqs|
    ensures Asked(rqs, n + 1) == Asked(rqs, n) + KeyOf(rqs[n])
    ensures |Asked(rqs, n + 1)| == |Asked(rqs, n)| + if KeyOf(rqs[n]) <= Asked(rqs, n) then 0 else 1
  {
    assert Asked(rqs, n + 1) == Asked(rqs, n) + KeyOf(rqs[n]);
  }

  predicate AsksFor(rq: Request, k: Key) {
    rq.stamp == Some(k.stamp) && rq.days == k.days
  }

  /** With room left, or for a known key, nothing stored is lost. */
  lemma {:induction false} RoomLeft(origins: Origins, rq: Request)
    requires |origins| < CACHE_MAX || rq.stamp.None? || Key(rq.stamp.value, rq.days) in origins
    ensures After(origins, rq).Keys == origins.Keys + KeyOf(rq)
    ensures forall k | k in origins :: k in After(origins, rq) && After(origins, rq)[k] == origins[k]
  {}

  lemma {:induction false} NextRequest(rqs: seq<Request>, n: nat)
    requires 0 < n <= |rqs|
    ensures AfterAll(rqs, n) == After(AfterAll(rqs, n - 1), rqs[n - 1])
  {}

  lemma {:induction false} EightKeysStay(rqs: seq<Request>, n: nat)
    requires n <= |rqs| && |Asked(rqs, n)| <= CACHE_MAX
    ensures AfterAll(rqs, n).Keys == Asked(rqs, n)
    ensures n > 0 ==> forall k | k in AfterAll(rqs, n - 1) ::
                        k in AfterAll(rqs, n) && AfterAll(rqs, n)[k] == AfterAll(rqs, n - 1)[k]
  {
    if n > 0 {
      var before := AfterAll(rqs, n - 1);
      AskedGrows(rqs, n - 1);
      EightKeysStay(rqs, n - 1);
      NextRequest(rqs, n);
      hide Asked, AfterAll, After;
      assert |before| == |before.Keys|;
      RoomLeft(before, rqs[n - 1]);
    } else {
      assert AfterAll(rqs, 0) == map[] && Asked(rqs, 0) == {};
    }
  }

  /** As long as no more than eight keys are asked for, each file is read once: every key stays stored
      with the content of the first request for it, the i-th of the run. */
  lemma {:induction false} EightKeysAreReadOnce(rqs: seq<Request>, n: nat, i: nat, k: Key)
    requires i < n <= |rqs| && |Asked(rqs, n)| <= 8
    requires AsksFor(rqs[i], k) && forall j | 0 <= j < i :: !AsksFor(rqs[j], k)
    ensures k in AfterAll(rqs, n) && AfterAll(rqs, n)[k] == rqs[i].file
  {
    hide Asked, AfterAll;
    AskedGrows(rqs, n - 1);
    EightKeysStay(rqs, n);
    if i < n - 1 {
      EightKeysAreReadOnce(rqs, n - 1, i, k);
    } else {
      EightKeysStay(rqs, i);
      NextRequest(rqs, n);
      assert k !in Asked(rqs, i) by { NotAsked(rqs, i, k); }
    }
  }

  lemma {:induction false} NotAsked(rqs: seq<Request>, n: nat, k: Key)
    requires n <= |rqs| && forall j | 0 <= j < n :: !AsksFor(rqs[j], k)
    ensures k !in Asked(rqs, n)
  {}

  /** A ninth key empties the cache first. */
  lemma {:induction false} NinthKeyEmptiesTheCache(rqs: seq<Request>, n: nat)
    requires n < |rqs| && |Asked(rqs, n)| == 8 && |Asked(rqs, n + 1)| == 9
    ensures rqs[n].stamp.Some?
    ensures AfterAll(rqs, n + 1) == map[Key(rqs[n].stamp.value, rqs[n].days) := rqs[n].file]
  {
    AskedGrows(rqs, n);
    EightKeysStay(rqs, n);
    NextRequest(rqs, n + 1);
    hide Asked, AfterAll;
    assert |AfterAll(rqs, n)| == |AfterAll(rqs, n).Keys|;
  }

  /** Over any run of file versions and trade-day windows, evictions included, the cached
      answer is the uncached one, provided the stamp determines the content. */
  lemma {:induction false} CachedAgreesWithUncached(rqs: seq<Request>, n: nat)
    requires n < |rqs| && StampsDetermineContent(rqs)
    ensures Fresh(rqs[n], Answering(AfterAll(rqs, n), rqs[n])) == Fresh(rqs[n], rqs[n].file)
  {
    if rqs[n].stamp.Some? {
      StoredCameFromACall(rqs, n, Key(rqs[n].stamp.value, rqs[n].days));
    }
  }

  /** Answer n of the run differs from the uncached one. */
  ghost predicate Stale(rqs: seq<Request>, n: nat)
    requires n < |rqs|
  {
    Fresh(rqs[n], Answering(AfterAll(rqs, n), rqs[n])) != Fresh(rqs[n], rqs[n].file)
  }

  predicate SameKey(a: Request, b: Request) {
    a.stamp.Some? && a.stamp == b.stamp && a.days == b.days
  }

  /** A stale answer comes from an earlier call that saw the same stamp on a content with other
      suspensions on the days asked for. */
  lemma {:induction false} StaleAnswerTracesBack(rqs: seq<Request>, n: nat) returns (i: nat)
    requires n < |rqs| && Stale(rqs, n)
    ensures i < n && SameKey(rqs[i], rqs[n])
    ensures SuspensionMap(rqs[i].file, rqs[i].days) != SuspensionMap(rqs[n].file, rqs[n].days)
  {
    hide SuspensionMap;
    var k := Key(rqs[n].stamp.value, rqs[n].days);
    StoredCameFromACall(rqs, n, k);
    i :| 0 <= i < n && rqs[i].stamp == Some(k.stamp) && rqs[i].days == k.days && rqs[i].file == AfterAll(rqs, n)[k];
  }

  lemma {:induction false} SecondOfTwo(a: Request, b: Request)
    requires SameKey(a, b)
    ensures !Stale([a, b], 0)
    ensures Stale([a, b], 1) <==> SuspensionMap(a.file, a.days) != SuspensionMap(b.file, b.days)
  {
    hide SuspensionMap;
    assert AfterAll([a, b], 0) == map[];
    assert AfterAll([a, b], 1) == After(map[], a);
  }

  /** Staleness is impossible in every run over the requests of R, evictions included, exactly when
      no two of them see one stamp and the same days on contents with different suspensions. */
  lemma {:induction false} NeverStaleExactlyWhen(R: set<Request>)
    ensures (forall rqs, n | 0 <= n < |rqs| && (forall k | 0 <= k < |rqs| :: rqs[k] in R) :: !Stale(rqs, n))
       <==> (forall a, b | a in R && b in R && SameKey(a, b) ::
               SuspensionMap(a.file, a.days) == SuspensionMap(b.file, b.days))
  {
    hide SuspensionMap, Stale;
    if forall a, b | a in R && b in R && SameKey(a, b) ::
         SuspensionMap(a.file, a.days) == SuspensionMap(b.file, b.days) {
      forall rqs, n | 0 <= n < |rqs| && (forall k | 0 <= k < |rqs| :: rqs[k] in R) ensures !Stale(rqs, n) {
        if Stale(rqs, n) { var i := StaleAnswerTracesBack(rqs, n); }
      }
    } else {
      var a, b :| a in R && b in R && SameKey(a, b) && SuspensionMap(a.file, a.days) != SuspensionMap(b.file, b.days);
      SecondOfTwo(a, b);
      assert forall k | 0 <= k < |[a, b]| :: [a, b][k] in R;
      assert Stale([a, b], 1);
    }
  }

  /** A file rewritten within one clock tick, to the same size, is answered from its old content. */
  lemma {:induction false} RewrittenInOneTick()
    ensures var stamp, days := Some(Stamp(1, 2, 3)), {10, 11};
            Stale([Request(stamp, [Event(1, 10, S)], days), Request(stamp, [Event(2, 10, S)], days)], 1)
  {
    var stamp, days := Some(Stamp(1, 2, 3)), {10, 11};
    var a, b := Request(stamp, [Event(1, 10, S)], days), Request(stamp, [Event(2, 10, S)], days);
    SecondOfTwo(a, b);
    SuspensionMeaning.OneSymbolTable(a.file, 1, days);
    SuspensionMeaning.OneSymbolTable(b.file, 2, days);
    assert SuspendedAfter(a.file, days, 10, 0);
    assert Suspended(a.file, days, 10);
    hide SuspensionMap;
    assert 1 in SuspensionMap(a.file, days) && 1 !in SuspensionMap(b.file, days);
  }
}
