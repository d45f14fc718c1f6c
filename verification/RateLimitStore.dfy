/** The fixed-window counter (src/middleware/inMemoryRateLimitStore.ts). */
module RateLimitStore {
  import opened Options

  datatype Entry = Entry(count: nat, resetAt: int)

  /** The entry after one more hit. */
  function Hit(entry: Option<Entry>, windowMs: int, now: int): Entry {
    match entry
    case None => Entry(1, now + windowMs)
    case Some(e) => if now >= e.resetAt then Entry(1, now + windowMs) else Entry(e.count + 1, e.resetAt)
  }

  function Lookup(hits: map<string, Entry>, key: string): Option<Entry> {
    if key in hits then Some(hits[key]) else None
  }

  class InMemoryRateLimitStore {
    var hits: map<string, Entry>

    constructor ()
      ensures hits == map[]
    {
      hits := map[];
    }

    method Increment(key: string, windowMs: int, now: int) returns (r: Entry)
      modifies this
      ensures r == Hit(Lookup(old(hits), key), windowMs, now)
      ensures hits == old(hits)[key := r]
    {
      if key !in hits || now >= hits[key].resetAt {
        r := Entry(1, now + windowMs);
        hits := hits[key := r];
        return;
      }
      var entry := hits[key];
      r := Entry(entry.count + 1, entry.resetAt);
      hits := hits[key := r];
    }
  }

  // ----- One key over a run -----

  /** What the increments at the given times return. */
  function Results(windowMs: int, times: seq<int>): (r: seq<Entry>)
    ensures |r| == |times|
  {
    if times == [] then []
    else
      var before := Results(windowMs, times[..|times| - 1]);
      var last := if before == [] then None else Some(before[|before| - 1]);
      before + [Hit(last, windowMs, times[|times| - 1])]
  }

  // ----- Runs that mix keys -----

  /** One call: its key and the time it is made. */
  type Call = (string, int)

  /** The times of the calls with this key. */
  function TimesOf(calls: seq<Call>, key: string): seq<int> {
    if calls == [] then []
    else
      var before, last := TimesOf(calls[..|calls| - 1], key), calls[|calls| - 1];
      if last.0 == key then before + [last.1] else before
  }

  /** What the calls with this key returned. */
  function ResultsOf(calls: seq<Call>, results: seq<Entry>, key: string): seq<Entry>
    requires |results| == |calls|
  {
    if calls == [] then []
    else
      var n := |calls| - 1;
      var before := ResultsOf(calls[..n], results[..n], key);
      if calls[n].0 == key then before + [results[n]] else before
  }

  function LastOf(results: seq<Entry>): Option<Entry> {
    if results == [] then None else Some(results[|results| - 1])
  }

  /** The calls so far, their results and the store, as one key sees them. */
  ghost predicate KeyAgrees(windowMs: int, calls: seq<Call>, r: seq<Entry>, hits: map<string, Entry>, key: string)
    requires |r| == |calls|
  {
    && ResultsOf(calls, r, key) == Results(windowMs, TimesOf(calls, key))
    && Lookup(hits, key) == LastOf(Results(windowMs, TimesOf(calls, key)))
  }

  ghost predicate AllAgree(windowMs: int, calls: seq<Call>, r: seq<Entry>, hits: map<string, Entry>)
    requires |r| == |calls|
  {
    forall key :: KeyAgrees(windowMs, calls, r, hits, key)
  }

  lemma NextCall(windowMs: int, calls: seq<Call>, call: Call, r: seq<Entry>, entry: Entry, was: map<string, Entry>,
                 key: string)
    requires |r| == |calls| && KeyAgrees(windowMs, calls, r, was, key) && KeyAgrees(windowMs, calls, r, was, call.0)
    requires entry == Hit(Lookup(was, call.0), windowMs, call.1)
    ensures KeyAgrees(windowMs, calls + [call], r + [entry], was[call.0 := entry], key)
  {
    var times := TimesOf(calls, key);
    assert (calls + [call])[..|calls|] == calls && (r + [entry])[..|r|] == r;
    assert (times + [call.1])[..|times|] == times;
  }

  lemma NextCallAgrees(windowMs: int, calls: seq<Call>, call: Call, r: seq<Entry>, entry: Entry,
                       was: map<string, Entry>)
    requires |r| == |calls| && AllAgree(windowMs, calls, r, was)
    requires entry == Hit(Lookup(was, call.0), windowMs, call.1)
    ensures AllAgree(windowMs, calls + [call], r + [entry], was[call.0 := entry])
  {
    var after, returned, now := calls + [call], r + [entry], was[call.0 := entry];
    forall key ensures KeyAgrees(windowMs, after, returned, now, key) {
      NextCall(windowMs, calls, call, r, entry, was, key);
    }
  }

  /** Every key's calls return what they would if no other key were used, and the store ends with
      the last result of each key. */
  method IncrementAll(store: InMemoryRateLimitStore, windowMs: int, calls: seq<Call>) returns (r: seq<Entry>)
    requires store.hits == map[]
    modifies store
    ensures |r| == |calls|
    ensures forall key :: ResultsOf(calls, r, key) == Results(windowMs, TimesOf(calls, key))
    ensures forall key :: Lookup(store.hits, key) == LastOf(Results(windowMs, TimesOf(calls, key)))
  {
    r := [];
    for i := 0 to |calls|
      invariant |r| == i && AllAgree(windowMs, calls[..i], r, store.hits)
    {
      ghost var was, returned := store.hits, r;
      var entry := store.Increment(calls[i].0, windowMs, calls[i].1);
      r := r + [entry];
      NextCallAgrees(windowMs, calls[..i], calls[i], returned, entry, was);
      assert calls[..i] + [calls[i]] == calls[..i + 1];
    }
    assert calls[..|calls|] == calls;
    forall key
      ensures ResultsOf(calls, r, key) == Results(windowMs, TimesOf(calls, key))
      ensures Lookup(store.hits, key) == LastOf(Results(windowMs, TimesOf(calls, key)))
    {
      assert KeyAgrees(windowMs, calls, r, store.hits, key);
    }
  }

  ghost predicate Ordered(times: seq<int>) {
    forall i, j | 0 <= i < j < |times| :: times[i] <= times[j]
  }

  lemma {:induction false} ResultAt(windowMs: int, times: seq<int>, i: nat)
    requires i < |times|
    ensures var r := Results(windowMs, times);
            r[i] == Hit(if i == 0 then None else Some(r[i - 1]), windowMs, times[i])
  {
    if i < |times| - 1 {
      ResultAt(windowMs, times[..|times| - 1], i);
    }
  }

  /** The window of increment i opened at increment i - (count - 1), and that is where it got
      count 1: inside a window the counts run 1, 2, 3 without gaps. */
  lemma {:induction false} WindowStart(windowMs: int, times: seq<int>, i: nat)
    requires i < |times| && windowMs > 0 && Ordered(times)
    ensures var r := Results(windowMs, times);
            var s := i - (r[i].count as int - 1);
            && 0 <= s <= i && r[s].count == 1
            && times[s] + windowMs == r[i].resetAt && times[i] < r[i].resetAt
            && forall k | s <= k <= i :: r[k] == Entry(k - s + 1, r[i].resetAt)
  {
    ResultAt(windowMs, times, i);
    var r := Results(windowMs, times);
    if i > 0 && times[i] < r[i - 1].resetAt {
      WindowStart(windowMs, times, i - 1);
    }
  }

  ghost function StartOf(windowMs: int, times: seq<int>, i: nat): int
    requires i < |times|
  {
    i - (Results(windowMs, times)[i].count as int - 1)
  }

  /** Windows never overlap: a later window opens at or after the earlier one's reset. */
  lemma {:induction false} WindowsDisjoint(windowMs: int, times: seq<int>, i: nat, j: nat)
    requires i < j < |times| && windowMs > 0 && Ordered(times)
    requires StartOf(windowMs, times, i) != StartOf(windowMs, times, j)
    ensures i < StartOf(windowMs, times, j)
    ensures times[StartOf(windowMs, times, j)] >= Results(windowMs, times)[i].resetAt
    decreases j
  {
    var r := Results(windowMs, times);
    WindowStart(windowMs, times, i);
    WindowStart(windowMs, times, j);
    var s := StartOf(windowMs, times, j);
    ResultAt(windowMs, times, s);
    if s - 1 > i && StartOf(windowMs, times, i) != StartOf(windowMs, times, s - 1) {
      WindowsDisjoint(windowMs, times, i, s - 1);
      WindowStart(windowMs, times, s - 1);
    } else if s - 1 > i {
      WindowStart(windowMs, times, s - 1);
      assert r[s - 1].resetAt == r[i].resetAt;
    }
  }

  /** The increments in [from, from + windowMs) that return at most `max`. */
  ghost function Admitted(windowMs: int, times: seq<int>, from: int, max: nat): set<nat> {
    set i: nat | i < |times| && from <= times[i] < from + windowMs && Results(windowMs, times)[i].count <= max
  }

  ghost function Range(from: nat, n: nat): set<nat> {
    if n == 0 then {} else Range(from, n - 1) + {from + n - 1}
  }

  lemma {:induction false} RangeSize(from: nat, n: nat)
    ensures |Range(from, n)| == n && forall i :: i in Range(from, n) <==> from <= i < from + n
  {
    if n > 0 {
      RangeSize(from, n - 1);
    }
  }

  /** An admitted increment lies among the first `max` of its window. */
  lemma AdmittedInRange(windowMs: int, times: seq<int>, from: int, max: nat, i: nat)
    requires windowMs > 0 && Ordered(times) && i in Admitted(windowMs, times, from, max)
    ensures 0 <= StartOf(windowMs, times, i) && i in Range(StartOf(windowMs, times, i), max)
  {
    WindowStart(windowMs, times, i);
    RangeSize(StartOf(windowMs, times, i), max);
  }

  /** Three increments of one interval of window length cannot lie in three windows. */
  lemma NoThirdWindow(windowMs: int, times: seq<int>, from: int, i: nat, j: nat, k: nat)
    requires i < j < k < |times| && windowMs > 0 && Ordered(times)
    requires from <= times[i] && times[k] < from + windowMs
    ensures StartOf(windowMs, times, i) == StartOf(windowMs, times, j)
         || StartOf(windowMs, times, j) == StartOf(windowMs, times, k)
  {
    WindowStart(windowMs, times, i);
    WindowStart(windowMs, times, j);
    WindowStart(windowMs, times, k);
    if StartOf(windowMs, times, i) != StartOf(windowMs, times, j)
        && StartOf(windowMs, times, j) != StartOf(windowMs, times, k) {
      WindowsDisjoint(windowMs, times, i, j);
      WindowsDisjoint(windowMs, times, j, k);
    }
  }

  lemma LeastIn(s: set<nat>) returns (m: nat)
    requires s != {}
    ensures m in s && forall i | i in s :: m <= i
  {
    var i :| i in s;
    var rest := set j | j in s && j < i;
    if rest == {} {
      m := i;
      forall j | j in s ensures m <= j {
        assert j !in rest;
      }
    } else {
      assert i !in rest;
      m := LeastIn(rest);
      forall j | j in s ensures m <= j {
        assert j < i ==> j in rest;
      }
    }
  }

  /** Any half-open interval of one window length admits at most 2 * max increments. */
  lemma AtMostTwiceMax(windowMs: int, times: seq<int>, from: int, max: nat)
    requires windowMs > 0 && Ordered(times)
    ensures |Admitted(windowMs, times, from, max)| <= 2 * max
  {
    var all := Admitted(windowMs, times, from, max);
    if all == {} { return; }
    var a := LeastIn(all);
    AdmittedInRange(windowMs, times, from, max, a);
    var first := Range(StartOf(windowMs, times, a), max);
    RangeSize(StartOf(windowMs, times, a), max);
    var later := set i | i in all && StartOf(windowMs, times, i) != StartOf(windowMs, times, a);
    forall i | i in all - later ensures i in first {
      AdmittedInRange(windowMs, times, from, max, i);
    }
    hide Admitted, StartOf, Range;
    SubsetSize(all - later, first);
    LaterAtMostMax(windowMs, times, from, max, a, later);
    SplitSize(all, later);
  }

  lemma SplitSize(all: set<nat>, later: set<nat>)
    requires later <= all
    ensures |all| == |all - later| + |later|
  {
    assert all == (all - later) + later;
  }

  lemma LaterAtMostMax(windowMs: int, times: seq<int>, from: int, max: nat, a: nat, later: set<nat>)
    requires windowMs > 0 && Ordered(times) && a in Admitted(windowMs, times, from, max)
    requires later <= Admitted(windowMs, times, from, max) && forall i | i in later :: a <= i
    requires forall i | i in later :: StartOf(windowMs, times, i) != StartOf(windowMs, times, a)
    ensures |later| <= max
  {
    if later == {} { return; }
    var b := LeastIn(later);
    AdmittedInRange(windowMs, times, from, max, b);
    var second := Range(StartOf(windowMs, times, b), max);
    RangeSize(StartOf(windowMs, times, b), max);
    forall i | i in later ensures i in second {
      AdmittedInRange(windowMs, times, from, max, i);
      if i != b {
        NoThirdWindow(windowMs, times, from, a, b, i);
      }
    }
    SubsetSize(later, second);
  }

  lemma {:induction false} SubsetSize(a: set<nat>, b: set<nat>)
    requires a <= b
    ensures |a| <= |b|
  {
    if a != {} {
      var x :| x in a;
      SubsetSize(a - {x}, b - {x});
    }
  }
}
