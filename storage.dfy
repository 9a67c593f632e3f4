/** `FirestoreService` of server/app/services/storage.py over two abstract collections: the
    result cache, keyed by the lower-cased company name, and the append-only log of
    extractions. Time is a count of seconds supplied by the caller. */
module Storage {
  import opened Wrappers
  import opened Text
  import opened Merging

  /** A search hit as the search service reports it. */
  datatype SearchResult = SearchResult(title: string, snippet: string, link: string,
                                       displayLink: string)

  /** A document of the `cache` collection. Its timestamp may be missing in documents not
      written by `cache_result`. */
  datatype CacheEntry = CacheEntry(companyName: string, suppliers: seq<Supplier>,
                                   totalSuppliers: nat, processingTime: real,
                                   timestamp: Option<int>)

  /** A document of the `supplier_extractions` collection. */
  datatype Extraction = Extraction(id: string, companyName: string, suppliers: seq<Supplier>,
                                   totalSuppliers: nat, processingTime: real,
                                   searchResultsCount: nat, timestamp: int,
                                   searchResults: seq<SearchResult>)

  datatype Statistics = Statistics(totalExtractions: nat, totalCachedCompanies: nat,
                                   timestamp: int)

  const SecondsPerDay: int := 86400

  /** `timedelta.days` of a span of seconds: rounded down, also for negative spans. */
  function Days(seconds: int): int {
    seconds / SecondsPerDay
  }

  /** The cache test of `get_cached_result`: a timestamp whose age is under one day. */
  predicate Fresh(entry: CacheEntry, now: int) {
    entry.timestamp.Some? && Days(now - entry.timestamp.value) < 1
  }

  /** An entry is fresh exactly when it has a timestamp less than 86400 seconds old (one from
      the future counts as fresh). */
  lemma FreshUnderADay(entry: CacheEntry, now: int)
    ensures Fresh(entry, now) <==>
      entry.timestamp.Some? && now - entry.timestamp.value < SecondsPerDay
  {
    if entry.timestamp.Some? {
      var age := now - entry.timestamp.value;
      assert age == Days(age) * SecondsPerDay + age % SecondsPerDay;
    }
  }

  /** What `get_cached_result` returns for a cache. */
  function Lookup(cache: map<string, CacheEntry>, companyName: string, now: int): Option<CacheEntry> {
    var key := Lower(companyName);
    if key in cache && Fresh(cache[key], now) then Some(cache[key]) else None
  }

  /** A hit exactly when the lower-cased name has an entry with a timestamp under a day old;
      the hit is that entry. */
  lemma LookupSpec(cache: map<string, CacheEntry>, companyName: string, now: int)
    ensures Lookup(cache, companyName, now).Some? <==>
      Lower(companyName) in cache && cache[Lower(companyName)].timestamp.Some? &&
      now - cache[Lower(companyName)].timestamp.value < SecondsPerDay
    ensures Lookup(cache, companyName, now).Some? ==>
      Lookup(cache, companyName, now).value == cache[Lower(companyName)]
  {
    if Lower(companyName) in cache {
      FreshUnderADay(cache[Lower(companyName)], now);
    }
  }

  /** Names differing only in case read the same entry. */
  lemma LookupCaseInsensitive(cache: map<string, CacheEntry>, a: string, b: string, now: int)
    requires Lower(a) == Lower(b)
    ensures Lookup(cache, a, now) == Lookup(cache, b, now)
  {
  }

  /** Right after `cache_result(c, s, p)` at time `t`, a read of any case variant of `c`
      within a day sees the suppliers `s`; reads of other names are unaffected. */
  lemma LookupAfterCache(cache: map<string, CacheEntry>, c: string, s: seq<Supplier>, p: real,
                         t: int, c2: string, now: int)
    ensures Lower(c2) == Lower(c) && now - t < SecondsPerDay ==>
      Lookup(cache[Lower(c) := Written(c, s, p, t)], c2, now) == Some(Written(c, s, p, t))
    ensures Lower(c2) == Lower(c) && now - t >= SecondsPerDay ==>
      Lookup(cache[Lower(c) := Written(c, s, p, t)], c2, now) == None
    ensures Lower(c2) != Lower(c) ==>
      Lookup(cache[Lower(c) := Written(c, s, p, t)], c2, now) == Lookup(cache, c2, now)
  {
    FreshUnderADay(Written(c, s, p, t), now);
  }

  /** The whole document `cache_result` writes. */
  function Written(companyName: string, suppliers: seq<Supplier>, processingTime: real, now: int)
    : CacheEntry
  {
    CacheEntry(companyName, suppliers, |suppliers|, processingTime, Some(now))
  }

  // History: the matching records, newest first.

  /** The records of one company, compared exactly, in log order. */
  function Matching(log: seq<Extraction>, companyName: string): seq<Extraction> {
    if log == [] then []
    else
      var last := log[|log| - 1];
      Matching(log[..|log| - 1], companyName) + (if last.companyName == companyName then [last] else [])
  }

  /** Inserts a record before the first one that is not newer; among records with the same
      timestamp the one stored later comes first. */
  function InsertNewestFirst(x: Extraction, sorted: seq<Extraction>): (r: seq<Extraction>)
    ensures multiset(r) == multiset(sorted) + multiset{x}
  {
    if sorted == [] then [x]
    else if x.timestamp >= sorted[0].timestamp then [x] + sorted
    else
      assert sorted == [sorted[0]] + sorted[1..];
      [sorted[0]] + InsertNewestFirst(x, sorted[1..])
  }

  /** `order_by("timestamp", DESCENDING)`. */
  function NewestFirst(records: seq<Extraction>): (r: seq<Extraction>)
    ensures multiset(r) == multiset(records)
  {
    if records == [] then []
    else
      assert records == records[..|records| - 1] + [records[|records| - 1]];
      InsertNewestFirst(records[|records| - 1], NewestFirst(records[..|records| - 1]))
  }

  predicate Descending(records: seq<Extraction>) {
    forall i, j :: 0 <= i < j < |records| ==> records[i].timestamp >= records[j].timestamp
  }

  /** A record no older than any of a descending list may go in front of it. */
  lemma ConsDescending(h: Extraction, t: seq<Extraction>)
    requires Descending(t)
    requires forall y :: y in t ==> h.timestamp >= y.timestamp
    ensures Descending([h] + t)
  {
    var r := [h] + t;
    forall i, j | 0 <= i < j < |r|
      ensures r[i].timestamp >= r[j].timestamp
    {
      assert r[j] == t[j - 1];
      if i > 0 {
        assert r[i] == t[i - 1];
      }
    }
  }

  lemma {:induction false} InsertKeepsDescending(x: Extraction, sorted: seq<Extraction>)
    requires Descending(sorted)
    ensures Descending(InsertNewestFirst(x, sorted))
  {
    if sorted == [] {
      assert InsertNewestFirst(x, sorted) == [x];
    } else if x.timestamp >= sorted[0].timestamp {
      forall y | y in sorted
        ensures x.timestamp >= y.timestamp
      {
        var j :| 0 <= j < |sorted| && sorted[j] == y;
      }
      ConsDescending(x, sorted);
    } else {
      var rest := sorted[1..];
      assert forall k :: 0 <= k < |rest| ==> rest[k] == sorted[k + 1];
      InsertKeepsDescending(x, rest);
      var inserted := InsertNewestFirst(x, rest);
      forall y | y in inserted
        ensures sorted[0].timestamp >= y.timestamp
      {
        assert y in multiset(inserted);
        if y != x {
          assert y in multiset(rest);
          var k :| 0 <= k < |rest| && rest[k] == y;
        }
      }
      ConsDescending(sorted[0], inserted);
    }
  }

  lemma {:induction false} NewestFirstDescending(records: seq<Extraction>)
    ensures Descending(NewestFirst(records))
  {
    if records != [] {
      NewestFirstDescending(records[..|records| - 1]);
      InsertKeepsDescending(records[|records| - 1], NewestFirst(records[..|records| - 1]));
    }
  }

  function Reverse(s: seq<Extraction>): seq<Extraction> {
    if s == [] then [] else [s[|s| - 1]] + Reverse(s[..|s| - 1])
  }

  /** The log in time order, as a clock that never goes back produces it. */
  predicate Ascending(records: seq<Extraction>) {
    forall i, j :: 0 <= i < j < |records| ==> records[i].timestamp <= records[j].timestamp
  }

  /** Under a clock that never goes back, newest first is reverse log order. */
  lemma {:induction false} NewestFirstOfAscending(records: seq<Extraction>)
    requires Ascending(records)
    ensures NewestFirst(records) == Reverse(records)
  {
    if records != [] {
      var init := records[..|records| - 1];
      assert Ascending(init);
      NewestFirstOfAscending(init);
      if init != [] {
        assert Reverse(init)[0] == init[|init| - 1];
      }
    }
  }

  function Min(a: nat, b: nat): nat {
    if a <= b then a else b
  }

  /** What `get_extraction_history` returns for a log. */
  function History(log: seq<Extraction>, companyName: string, limit: nat): seq<Extraction> {
    var sorted := NewestFirst(Matching(log, companyName));
    sorted[..Min(limit, |sorted|)]
  }

  lemma {:induction false} MatchingSpec(log: seq<Extraction>, companyName: string)
    ensures forall x :: x in multiset(Matching(log, companyName)) ==> x.companyName == companyName
    ensures forall x :: x in multiset(Matching(log, companyName)) <==> x in log && x.companyName == companyName
  {
    if log != [] {
      var init := log[..|log| - 1];
      MatchingSpec(init, companyName);
      assert log == init + [log[|log| - 1]];
    }
  }

  /** The history holds at most `limit` records, all of the company (compared exactly) and
      all from the log. */
  lemma HistoryMembers(log: seq<Extraction>, companyName: string, limit: nat)
    ensures |History(log, companyName, limit)| == Min(limit, |Matching(log, companyName)|)
    ensures forall i :: 0 <= i < |History(log, companyName, limit)| ==>
      History(log, companyName, limit)[i].companyName == companyName &&
      History(log, companyName, limit)[i] in log
  {
    var m := Matching(log, companyName);
    var sorted := NewestFirst(m);
    MatchingSpec(log, companyName);
    var h := History(log, companyName, limit);
    forall i | 0 <= i < |h|
      ensures h[i].companyName == companyName && h[i] in log
    {
      assert h[i] == sorted[i];
      assert sorted[i] in multiset(sorted);
    }
  }

  /** The history is newest first, and any matching record left out is no newer than every
      record returned. */
  lemma HistoryOrder(log: seq<Extraction>, companyName: string, limit: nat)
    ensures Descending(History(log, companyName, limit))
    ensures forall i, j :: 0 <= i < |History(log, companyName, limit)| <= j < |NewestFirst(Matching(log, companyName))| ==>
      NewestFirst(Matching(log, companyName))[j].timestamp <= History(log, companyName, limit)[i].timestamp
  {
    var sorted := NewestFirst(Matching(log, companyName));
    NewestFirstDescending(Matching(log, companyName));
    var h := History(log, companyName, limit);
    assert forall i :: 0 <= i < |h| ==> h[i] == sorted[i];
  }

  class FirestoreService {
    /** The `cache` collection: document id to document. */
    var cache: map<string, CacheEntry>
    /** The `supplier_extractions` collection, in the order the records were added. */
    var extractions: seq<Extraction>

    constructor ()
      ensures cache == map[] && extractions == []
    {
      cache := map[];
      extractions := [];
    }

    /** `store_extraction_result`: appends one record stamped `now` and returns the id the
        store gave it; earlier records are untouched. */
    method StoreExtractionResult(companyName: string, suppliers: seq<Supplier>,
                                 processingTime: real, searchResults: seq<SearchResult>,
                                 now: int, newId: string)
      returns (id: string)
      modifies this
      ensures id == newId
      ensures extractions == old(extractions) +
        [Extraction(newId, companyName, suppliers, |suppliers|, processingTime,
                    |searchResults|, now, searchResults)]
      ensures cache == old(cache)
      ensures GetStatistics(now).totalExtractions == old(GetStatistics(now)).totalExtractions + 1
      ensures GetStatistics(now).totalCachedCompanies == old(GetStatistics(now)).totalCachedCompanies
    {
      var record := Extraction(newId, companyName, suppliers, |suppliers|, processingTime,
                               |searchResults|, now, searchResults);
      extractions := extractions + [record];
      return newId;
    }

    /** `get_cached_result` at time `now`: a hit exactly when the lower-cased name has an
        entry stamped less than a day ago, and then that entry; it never changes the cache. */
    function GetCachedResult(companyName: string, now: int): (r: Option<CacheEntry>)
      reads this
      ensures r.Some? <==>
        Lower(companyName) in cache && cache[Lower(companyName)].timestamp.Some? &&
        now - cache[Lower(companyName)].timestamp.value < SecondsPerDay
      ensures r.Some? ==> r.value == cache[Lower(companyName)]
    {
      LookupSpec(cache, companyName, now);
      Lookup(cache, companyName, now)
    }

    /** `cache_result`: replaces the whole entry of the lower-cased name. */
    method CacheResult(companyName: string, suppliers: seq<Supplier>, processingTime: real,
                       now: int)
      modifies this
      ensures cache == old(cache)[Lower(companyName) := Written(companyName, suppliers, processingTime, now)]
      ensures extractions == old(extractions)
      ensures GetStatistics(now).totalCachedCompanies ==
        old(GetStatistics(now)).totalCachedCompanies + (if Lower(companyName) in old(cache) then 0 else 1)
      ensures GetStatistics(now).totalExtractions == old(GetStatistics(now)).totalExtractions
    {
      StatisticsAfterWrites(cache, Lower(companyName), Written(companyName, suppliers, processingTime, now));
      cache := cache[Lower(companyName) := Written(companyName, suppliers, processingTime, now)];
    }

    /** `get_extraction_history`: at most `limit` records of the company, newest first. */
    function GetExtractionHistory(companyName: string, limit: nat := 10): (r: seq<Extraction>)
      reads this
      ensures |r| == Min(limit, |Matching(extractions, companyName)|)
      ensures forall i :: 0 <= i < |r| ==> r[i].companyName == companyName && r[i] in extractions
      ensures Descending(r)
    {
      HistoryMembers(extractions, companyName, limit);
      HistoryOrder(extractions, companyName, limit);
      History(extractions, companyName, limit)
    }

    /** `get_statistics` at time `now`: the sizes of the two collections. */
    function GetStatistics(now: int): (r: Statistics)
      reads this
      ensures r.totalExtractions == |extractions| && r.totalCachedCompanies == |cache.Keys|
      ensures r.timestamp == now
    {
      Statistics(|extractions|, |cache.Keys|, now)
    }
  }

  /** Writing an entry counts one more cached company exactly when its key was not cached
      before. */
  lemma StatisticsAfterWrites(cache: map<string, CacheEntry>, key: string, entry: CacheEntry)
    ensures |cache[key := entry].Keys| == |cache.Keys| + (if key in cache then 0 else 1)
  {
    if key in cache {
      assert cache[key := entry].Keys == cache.Keys;
    } else {
      assert cache[key := entry].Keys == cache.Keys + {key};
    }
  }

  /** A record just stored at a time no earlier than any other record of its company heads
      that company's history. */
  lemma StoredHeadsHistory(log: seq<Extraction>, record: Extraction, limit: nat)
    requires 0 < limit
    requires forall i :: 0 <= i < |log| && log[i].companyName == record.companyName ==>
      log[i].timestamp <= record.timestamp
    ensures History(log + [record], record.companyName, limit)[0] == record
  {
    var log' := log + [record];
    assert log'[..|log'| - 1] == log;
    var m := Matching(log, record.companyName);
    MatchingSpec(log, record.companyName);
    var sorted := NewestFirst(m);
    assert Matching(log', record.companyName) == m + [record];
    assert (m + [record])[..|m|] == m;
    assert NewestFirst(m + [record]) == InsertNewestFirst(record, sorted);
    if sorted != [] {
      assert sorted[0] in multiset(sorted);
      assert sorted[0] in multiset(m);
      assert record.timestamp >= sorted[0].timestamp;
    }
  }
}
