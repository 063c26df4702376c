/** The in-process cache, and the database table that stands behind the shared one. */
module Caches {
  import opened Collections
  import opened Patterns
  import opened Strings
  import opened Wrappers

  type Time = int

  datatype Entry = Entry(value: string, expiresAt: Time)

  /** A JavaScript `Map`: distinct keys, in the order they were inserted. */
  type Entries = seq<(string, Entry)>

  predicate Live(e: Entry, now: Time) { now < e.expiresAt }

  function Find(entries: Entries, key: string): Option<Entry> {
    if entries == [] then None
    else if entries[0].0 == key then Some(entries[0].1)
    else Find(entries[1..], key)
  }

  function Removed(entries: Entries, gone: string -> bool): Entries {
    if entries == [] then []
    else (if gone(entries[0].0) then [] else [entries[0]]) + Removed(entries[1..], gone)
  }

  function Without(entries: Entries, key: string): Entries {
    Removed(entries, (k: string) => k == key)
  }

  function WithoutPrefix(entries: Entries, prefix: string): Entries {
    Removed(entries, (k: string) => IsPrefix(prefix, k))
  }

  function Evicted(entries: Entries, max: nat): Entries {
    if |entries| <= max then entries else entries[|entries| - max..]
  }

  function Written(entries: Entries, key: string, e: Entry, max: nat): Entries {
    Evicted(Without(entries, key) + [(key, e)], max)
  }

  /** A read finds a live entry, or drops a dead one. */
  function Looked(entries: Entries, key: string, now: Time): Entries {
    if Find(entries, key).Some? && !Live(Find(entries, key).value, now) then Without(entries, key) else entries
  }

  class MemoryCache {
    const maxEntries: nat
    const prefix: string
    var entries: Entries

    constructor (maxEntries: nat, prefix: string)
      ensures this.maxEntries == maxEntries && this.prefix == prefix && entries == []
    {
      this.maxEntries, this.prefix, entries := maxEntries, prefix, [];
    }

    method Get(key: string, now: Time) returns (value: Option<string>)
      modifies this
      ensures entries == Looked(old(entries), prefix + key, now)
      ensures value == match Find(old(entries), prefix + key)
        case Some(e) => if Live(e, now) then Some(e.value) else None
        case None => None
    {
      var entry := Find(entries, prefix + key);
      if entry.None? { return None; }
      if entry.value.expiresAt <= now {
        entries := Without(entries, prefix + key);
        return None;
      }
      return Some(entry.value.value);
    }

    method Set(key: string, value: string, ttl: int, now: Time)
      modifies this
      ensures entries == Written(old(entries), prefix + key, Entry(value, now + ttl), maxEntries)
    {
      var full := prefix + key;
      entries := Without(entries, full);
      entries := entries + [(full, Entry(value, now + ttl))];
      ghost var whole := entries;
      while |entries| > maxEntries
        invariant |entries| <= |whole| && entries == whole[|whole| - |entries|..]
        invariant Evicted(entries, maxEntries) == Evicted(whole, maxEntries)
      {
        entries := entries[1..];
      }
    }

    /** That key is gone, and no other has moved or changed. */
    method Delete(key: string)
      modifies this
      ensures entries == Without(old(entries), prefix + key)
      ensures forall k :: Find(entries, k) == if k == prefix + key then None else Find(old(entries), k)
    {
      forall k { WithoutFind(entries, prefix + key, k); }
      entries := Without(entries, prefix + key);
    }

    method DeletePrefix(keyPrefix: string) returns (removed: nat)
      modifies this
      ensures entries == WithoutPrefix(old(entries), prefix + keyPrefix)
      ensures forall k :: Find(entries, k) == if IsPrefix(prefix + keyPrefix, k) then None else Find(old(entries), k)
      ensures removed == |old(entries)| - |entries|
    {
      var full := prefix + keyPrefix;
      var kept: Entries := [];
      removed := 0;
      for n := 0 to |entries|
        invariant entries == old(entries)
        invariant kept + WithoutPrefix(entries[n..], full) == WithoutPrefix(entries, full)
        invariant removed == n - |kept|
      {
        assert entries[n..][1..] == entries[n + 1..];
        if IsPrefix(full, entries[n].0) {
          removed := removed + 1;
        } else {
          assert kept + ([entries[n]] + WithoutPrefix(entries[n + 1..], full)) ==
            (kept + [entries[n]]) + WithoutPrefix(entries[n + 1..], full);
          kept := kept + [entries[n]];
        }
      }
      forall k { WithoutPrefixFind(entries, full, k); }
      entries := kept;
    }

    /** Only what this installation put there. */
    method Clear()
      modifies this
      ensures entries == WithoutPrefix(old(entries), prefix)
    {
      assert prefix + "" == prefix;
      var _ := DeletePrefix("");
    }
  }

  // --- Every sequence of operations --------------------------------------------------------

  /** Keys are as the map holds them, with the installation's prefix; `Clear` is `DropPrefix` of it. */
  datatype Op =
    | Read(key: string)
    | Write(key: string, value: string, ttl: int)
    | Drop(key: string)
    | DropPrefix(prefix: string)

  datatype Step = Step(op: Op, now: Time)

  function Apply(entries: Entries, s: Step, max: nat): Entries {
    match s.op
    case Read(key) => Looked(entries, key, s.now)
    case Write(key, value, ttl) => Written(entries, key, Entry(value, s.now + ttl), max)
    case Drop(key) => Without(entries, key)
    case DropPrefix(prefix) => WithoutPrefix(entries, prefix)
  }

  function After(steps: seq<Step>, max: nat): Entries
    decreases |steps|
  {
    if steps == [] then [] else Apply(After(steps[..|steps| - 1], max), steps[|steps| - 1], max)
  }

  function Remember(m: map<string, Entry>, s: Step): map<string, Entry> {
    match s.op
    case Read(_) => m
    case Write(key, value, ttl) => m[key := Entry(value, s.now + ttl)]
    case Drop(key) => m - {key}
    case DropPrefix(prefix) => map k | k in m && !IsPrefix(prefix, k) :: m[k]
  }

  /** The map a cache with no bound and no lazy expiry would hold. */
  function Unbounded(steps: seq<Step>): map<string, Entry>
    decreases |steps|
  {
    if steps == [] then map[] else Remember(Unbounded(steps[..|steps| - 1]), steps[|steps| - 1])
  }

  function Since(since: set<string>, s: Step, key: string): set<string> {
    if !s.op.Write? then since else if s.op.key == key then {} else since + {s.op.key}
  }

  /** The other keys written since `key` last was. */
  function WrittenSince(steps: seq<Step>, key: string): set<string>
    decreases |steps|
  {
    if steps == [] then {} else Since(WrittenSince(steps[..|steps| - 1], key), steps[|steps| - 1], key)
  }

  /** The clock never runs backwards. */
  predicate Ordered(steps: seq<Step>) {
    forall i, j :: 0 <= i < j < |steps| ==> steps[i].now <= steps[j].now
  }

  function Keys(entries: Entries): set<string> {
    if entries == [] then {} else {entries[0].0} + Keys(entries[1..])
  }

  predicate DistinctKeys(entries: Entries) {
    entries == [] || (entries[0].0 !in Keys(entries[1..]) && DistinctKeys(entries[1..]))
  }

  /** The keys that stand behind `key`. */
  function KeysAfter(entries: Entries, key: string): set<string> {
    if entries == [] then {}
    else if entries[0].0 == key then Keys(entries[1..])
    else KeysAfter(entries[1..], key)
  }

  // --- What the list operations do ---------------------------------------------------------

  lemma {:induction false} RemovedKeys(entries: Entries, gone: string -> bool)
    ensures Keys(Removed(entries, gone)) <= Keys(entries)
    ensures DistinctKeys(entries) ==> DistinctKeys(Removed(entries, gone))
    ensures |Removed(entries, gone)| <= |entries|
    decreases |entries|
  {
    if entries == [] {
    } else {
      RemovedKeys(entries[1..], gone);
      var rest := Removed(entries[1..], gone);
      assert ([entries[0]] + rest)[1..] == rest;
      assert [] + rest == rest;
    }
  }

  lemma {:induction false} RemovedFind(entries: Entries, gone: string -> bool, k: string)
    ensures Find(Removed(entries, gone), k) == if gone(k) then None else Find(entries, k)
    ensures KeysAfter(Removed(entries, gone), k) <= KeysAfter(entries, k)
    decreases |entries|
  {
    if entries == [] {
    } else {
      RemovedFind(entries[1..], gone, k);
      RemovedKeys(entries[1..], gone);
      RemovedSkips(entries[1..], gone, k);
      var rest := Removed(entries[1..], gone);
      assert ([entries[0]] + rest)[1..] == rest;
      assert [] + rest == rest;
    }
  }

  lemma {:induction false} RemovedSkips(entries: Entries, gone: string -> bool, k: string)
    ensures gone(k) ==> KeysAfter(Removed(entries, gone), k) == {}
    decreases |entries|
  {
    if entries == [] {
    } else {
      RemovedSkips(entries[1..], gone, k);
      var rest := Removed(entries[1..], gone);
      assert ([entries[0]] + rest)[1..] == rest;
      assert [] + rest == rest;
    }
  }

  lemma WithoutFind(entries: Entries, key: string, k: string)
    ensures Find(Without(entries, key), k) == if k == key then None else Find(entries, k)
  {
    RemovedFind(entries, (x: string) => x == key, k);
  }

  lemma WithoutPrefixFind(entries: Entries, prefix: string, k: string)
    ensures Find(WithoutPrefix(entries, prefix), k) == if IsPrefix(prefix, k) then None else Find(entries, k)
  {
    RemovedFind(entries, (x: string) => IsPrefix(prefix, x), k);
  }

  lemma {:induction false} AppendFacts(entries: Entries, x: string, e: Entry, k: string)
    requires x !in Keys(entries) && DistinctKeys(entries)
    ensures var whole := entries + [(x, e)];
      && DistinctKeys(whole) && Keys(whole) == Keys(entries) + {x}
      && Find(whole, k) == (if k == x then Some(e) else Find(entries, k))
      && KeysAfter(whole, k) <= KeysAfter(entries, k) + {x}
      && KeysAfter(whole, x) == {}
    decreases |entries|
  {
    var whole := entries + [(x, e)];
    if entries == [] {
      assert whole[1..] == [];
    } else {
      assert whole[1..] == entries[1..] + [(x, e)];
      AppendFacts(entries[1..], x, e, k);
    }
  }

  lemma {:induction false} KeyCount(entries: Entries)
    requires DistinctKeys(entries)
    ensures |Keys(entries)| == |entries|
    decreases |entries|
  {
    if entries == [] {
    } else {
      KeyCount(entries[1..]);
    }
  }

  lemma {:induction false} FindKnowsKeys(entries: Entries, k: string)
    ensures Find(entries, k).Some? <==> k in Keys(entries)
    decreases |entries|
  {
    if entries == [] {
    } else {
      FindKnowsKeys(entries[1..], k);
    }
  }

  /** An entry still there after eviction is untouched; one that is not had `max` keys behind it. */
  lemma {:induction false} EvictedFacts(entries: Entries, max: nat, k: string)
    requires DistinctKeys(entries)
    ensures var left := Evicted(entries, max);
      && DistinctKeys(left) && |left| <= max && Keys(left) <= Keys(entries)
      && (Find(left, k).Some? ==> Find(left, k) == Find(entries, k) && KeysAfter(left, k) == KeysAfter(entries, k))
      && (Find(left, k).None? && Find(entries, k).Some? ==> |KeysAfter(entries, k)| >= max)
    decreases |entries|
  {
    if |entries| > max {
      assert Evicted(entries, max) == Evicted(entries[1..], max) by {
        assert entries[|entries| - max..] == entries[1..][|entries[1..]| - max..];
      }
      EvictedFacts(entries[1..], max, k);
      FindKnowsKeys(Evicted(entries, max), k);
      KeyCount(entries[1..]);
    }
  }

  // --- The invariant -----------------------------------------------------------------------

  /** Either the cache agrees with the unbounded map about `k`, or it lost it for a reason. */
  ghost predicate Explained(
    entries: Entries, m: map<string, Entry>, since: set<string>, k: string, now: Time, max: nat) {
    && KeysAfter(entries, k) <= since
    && (k !in m ==> Find(entries, k) == None)
    && (k in m ==> Find(entries, k) == Some(m[k]) || (Find(entries, k) == None && (!Live(m[k], now) || |since| >= max)))
  }

  lemma AppendedExplained(
    entries: Entries, m: map<string, Entry>, since: set<string>, k: string, now: Time, max: nat, x: string, e: Entry)
    requires DistinctKeys(entries) && Explained(entries, m, since, k, now, max)
    ensures DistinctKeys(Without(entries, x) + [(x, e)])
    ensures Explained(Without(entries, x) + [(x, e)], m[x := e], if k == x then {} else since + {x}, k, now, max)
  {
    var gone := (y: string) => y == x;
    var left := Without(entries, x);
    RemovedKeys(entries, gone);
    RemovedFind(entries, gone, k);
    RemovedFind(entries, gone, x);
    FindKnowsKeys(left, x);
    AppendFacts(left, x, e, k);
    Smaller(since, since + {x});
  }

  lemma EvictedExplained(entries: Entries, m: map<string, Entry>, since: set<string>, k: string, now: Time, max: nat)
    requires DistinctKeys(entries) && Explained(entries, m, since, k, now, max)
    ensures DistinctKeys(Evicted(entries, max)) && |Evicted(entries, max)| <= max
    ensures Explained(Evicted(entries, max), m, since, k, now, max)
  {
    EvictedFacts(entries, max, k);
    Smaller(KeysAfter(entries, k), since);
    FindKnowsKeys(Evicted(entries, max), k);
    AbsentHasNoneAfter(Evicted(entries, max), k);
  }

  lemma {:induction false} AbsentHasNoneAfter(entries: Entries, k: string)
    ensures Find(entries, k).None? ==> KeysAfter(entries, k) == {}
    decreases |entries|
  {
    if entries == [] {
    } else {
      AbsentHasNoneAfter(entries[1..], k);
    }
  }

  lemma RemovedExplained(
    entries: Entries, m: map<string, Entry>, since: set<string>, k: string, now: Time, max: nat,
    gone: string -> bool, m': map<string, Entry>)
    requires DistinctKeys(entries) && Explained(entries, m, since, k, now, max)
    requires m' == map x | x in m && !gone(x) :: m[x]
    ensures DistinctKeys(Removed(entries, gone)) && |Removed(entries, gone)| <= |entries|
    ensures Explained(Removed(entries, gone), m', since, k, now, max)
  {
    RemovedKeys(entries, gone);
    RemovedFind(entries, gone, k);
  }

  /** Dropping a dead entry on a read is a loss that explains itself. */
  lemma LookedExplained(
    entries: Entries, m: map<string, Entry>, since: set<string>, k: string, now: Time, max: nat, key: string)
    requires DistinctKeys(entries) && Explained(entries, m, since, k, now, max)
    ensures DistinctKeys(Looked(entries, key, now)) && |Looked(entries, key, now)| <= |entries|
    ensures Explained(Looked(entries, key, now), m, since, k, now, max)
  {
    var gone := (x: string) => x == key;
    RemovedKeys(entries, gone);
    RemovedFind(entries, gone, k);
  }

  ghost function ClockOf(steps: seq<Step>): Time {
    if steps == [] then 0 else steps[|steps| - 1].now
  }

  ghost predicate AllExplained(steps: seq<Step>, k: string, max: nat) {
    && DistinctKeys(After(steps, max)) && |After(steps, max)| <= max
    && Explained(After(steps, max), Unbounded(steps), WrittenSince(steps, k), k, ClockOf(steps), max)
  }

  lemma WriteExplained(entries: Entries, m: map<string, Entry>, since: set<string>, k: string, max: nat, s: Step)
    requires DistinctKeys(entries) && s.op.Write? && Explained(entries, m, since, k, s.now, max)
    ensures var after := Apply(entries, s, max);
      && DistinctKeys(after) && |after| <= max
      && Explained(after, Remember(m, s), Since(since, s, k), k, s.now, max)
  {
    var key, e := s.op.key, Entry(s.op.value, s.now + s.op.ttl);
    var longer := Without(entries, key) + [(key, e)];
    assert Apply(entries, s, max) == Evicted(longer, max) && Remember(m, s) == m[key := e];
    AppendedExplained(entries, m, since, k, s.now, max, key, e);
    EvictedExplained(longer, m[key := e], Since(since, s, k), k, s.now, max);
  }

  lemma DropExplained(entries: Entries, m: map<string, Entry>, since: set<string>, k: string, max: nat, s: Step)
    requires DistinctKeys(entries) && (s.op.Drop? || s.op.DropPrefix?) && Explained(entries, m, since, k, s.now, max)
    ensures var after := Apply(entries, s, max);
      && DistinctKeys(after) && |after| <= |entries|
      && Explained(after, Remember(m, s), Since(since, s, k), k, s.now, max)
  {
    if s.op.Drop? {
      RemovedExplained(entries, m, since, k, s.now, max, (x: string) => x == s.op.key, Remember(m, s));
    } else {
      RemovedExplained(entries, m, since, k, s.now, max, (x: string) => IsPrefix(s.op.prefix, x), Remember(m, s));
    }
  }

  lemma LaterExplained(
    entries: Entries, m: map<string, Entry>, since: set<string>, k: string, now: Time, now': Time, max: nat)
    requires Explained(entries, m, since, k, now, max) && now <= now'
    ensures Explained(entries, m, since, k, now', max)
  {}

  lemma {:induction false} EveryRunIsExplained(steps: seq<Step>, k: string, max: nat)
    requires Ordered(steps)
    ensures AllExplained(steps, k, max)
    decreases |steps|
  {
    if steps == [] {
    } else {
      var init, s := steps[..|steps| - 1], steps[|steps| - 1];
      EveryRunIsExplained(init, k, max);
      var entries, m, since := After(init, max), Unbounded(init), WrittenSince(init, k);
      if init == [] {
      } else {
        LaterExplained(entries, m, since, k, ClockOf(init), s.now, max);
      }
      match s.op {
        case Read(key) => LookedExplained(entries, m, since, k, s.now, max, key);
        case Write(_, _, _) => WriteExplained(entries, m, since, k, max, s);
        case _ => DropExplained(entries, m, since, k, max, s);
      }
    }
  }

  // --- Main results ------------------------------------------------------------------------

  /** What `get` would answer now. */
  function Answer(entries: Entries, key: string, now: Time): Option<string> {
    match Find(entries, key)
    case Some(e) => if Live(e, now) then Some(e.value) else None
    case None => None
  }

  /** At most `max` entries, each behind only keys that were written before it. */
  lemma CacheIsBoundedAndInWriteOrder(steps: seq<Step>, max: nat, key: string)
    requires Ordered(steps)
    ensures |After(steps, max)| <= max
    ensures KeysAfter(After(steps, max), key) <= WrittenSince(steps, key)
  {
    EveryRunIsExplained(steps, key, max);
  }

  /** A hit is what the unbounded map holds. An entry that map still holds is missed only when
      at least `max` other keys have been written since it was. */
  lemma HitsAreCurrentAndMissesExplained(steps: seq<Step>, max: nat, key: string, now: Time)
    requires Ordered(steps) && ClockOf(steps) <= now
    ensures var m := Unbounded(steps);
      var expected := if key in m && Live(m[key], now) then Some(m[key].value) else None;
      Answer(After(steps, max), key, now) ==
        expected || (Answer(After(steps, max), key, now) == None && |WrittenSince(steps, key)| >= max)
  {
    EveryRunIsExplained(steps, key, max);
  }

  /** Nothing after step `n` writes, drops or clears `key`. */
  ghost predicate Untouched(steps: seq<Step>, n: nat, key: string) {
    forall k | n < k < |steps| ::
      match steps[k].op
      case Read(_) => true
      case Write(other, _, _) => other != key
      case Drop(other) => other != key
      case DropPrefix(p) => !IsPrefix(p, key)
  }

  lemma {:induction false} LastWriteStands(steps: seq<Step>, n: nat, key: string)
    requires n < |steps| && steps[n].op.Write? && steps[n].op.key == key && Untouched(steps, n, key)
    ensures key in Unbounded(steps)
    ensures Unbounded(steps)[key] == Entry(steps[n].op.value, steps[n].now + steps[n].op.ttl)
    ensures WrittenSince(steps, key) == set k | n < k < |steps| && steps[k].op.Write? :: steps[k].op.key
    decreases |steps|
  {
    var last := |steps| - 1;
    var init := steps[..last];
    if n == last {
    } else {
      assert forall k :: 0 <= k < last ==> init[k] == steps[k];
      LastWriteStands(init, n, key);
      assert (set k | n < k < last && init[k].op.Write? :: init[k].op.key)
          == set k | n < k < last && steps[k].op.Write? :: steps[k].op.key;
      assert (set k | n < k < |steps| && steps[k].op.Write? :: steps[k].op.key)
          == (set k | n < k < last && steps[k].op.Write? :: steps[k].op.key)
             + (if steps[last].op.Write? then {steps[last].op.key} else {});
    }
  }

  /** What was written is read back until it expires, whatever else is done, unless the key itself
      is written or deleted or as many other keys are written as the cache can hold. */
  lemma WrittenIsReadBack(steps: seq<Step>, n: nat, max: nat, key: string, value: string, ttl: int, now: Time)
    requires Ordered(steps) && n < |steps| && steps[n].op == Write(key, value, ttl) && Untouched(steps, n, key)
    requires |set k | n < k < |steps| && steps[k].op.Write? :: steps[k].op.key| < max
    requires ClockOf(steps) <= now
    ensures Answer(After(steps, max), key, now) == if now < steps[n].now + ttl then Some(value) else None
  {
    LastWriteStands(steps, n, key);
    HitsAreCurrentAndMissesExplained(steps, max, key, now);
  }

  // --- The cache_entries table -------------------------------------------------------------

  function TableAnswer(rows: map<string, Entry>, key: string, now: Time): Option<string> {
    if key in rows && Live(rows[key], now) then Some(rows[key].value) else None
  }

  /** Keys arrive already carrying the installation's prefix. */
  class CacheTable {
    var rows: map<string, Entry>

    constructor ()
      ensures rows == map[]
    {
      rows := map[];
    }

    /** Expiry is enforced on the read. */
    method ReadCacheEntry(key: string, now: Time) returns (value: Option<string>)
      ensures value == TableAnswer(rows, key, now)
      ensures value.Some? <==> key in rows && now < rows[key].expiresAt
      ensures value.Some? ==> value.value == rows[key].value
    {
      if key in rows && rows[key].expiresAt > now { return Some(rows[key].value); }
      return None;
    }

    method WriteCacheEntry(key: string, value: string, expiresAt: Time)
      modifies this
      ensures rows == old(rows)[key := Entry(value, expiresAt)]
    {
      rows := rows[key := Entry(value, expiresAt)];
    }

    /** The statement matches with `LIKE`; what goes is what starts with the prefix. */
    method DeleteCacheEntriesWithPrefix(prefix: string) returns (removed: nat)
      modifies this
      ensures rows == map k | k in old(rows) && !IsPrefix(prefix, k) :: old(rows)[k]
      ensures removed == |set k | k in old(rows) && IsPrefix(prefix, k)|
    {
      var gone := set k | k in rows && Like(EscapeLike(prefix) + "%", k);
      forall k | k in rows { PrefixDeletesAgree(prefix, k); }
      assert gone == set k | k in rows && IsPrefix(prefix, k);
      removed := |gone|;
      rows := rows - gone;
    }

    method DeleteExpiredCacheEntries(now: Time) returns (removed: nat)
      modifies this
      ensures rows == map k | k in old(rows) && Live(old(rows)[k], now) :: old(rows)[k]
      ensures removed == |old(rows)| - |rows|
      ensures forall k <- old(rows) :: k in rows <==> now < old(rows)[k].expiresAt
    {
      var gone := set k | k in rows && rows[k].expiresAt <= now;
      removed := |gone|;
      assert (rows - gone).Keys == rows.Keys - gone;
      rows := rows - gone;
    }
  }

  /** A row as the table holds it after writes, deletes and sweeps in any order. */
  function TableAfter(steps: seq<Step>, sweeps: set<nat>): map<string, Entry>
    decreases |steps|
  {
    if steps == [] then map[]
    else
      var n := |steps| - 1;
      var m := Remember(TableAfter(steps[..n], sweeps), steps[n]);
      if n in sweeps then map k | k in m && Live(m[k], steps[n].now) :: m[k] else m
  }

  /** The sweep is hygiene: whenever it runs, no read can tell. */
  lemma {:induction false} SweepsAreInvisible(steps: seq<Step>, sweeps: set<nat>, key: string, now: Time)
    requires Ordered(steps) && (steps != [] ==> ClockOf(steps) <= now)
    ensures TableAnswer(TableAfter(steps, sweeps), key, now) == TableAnswer(Unbounded(steps), key, now)
    ensures key in TableAfter(steps, sweeps) ==>
      key in Unbounded(steps) && TableAfter(steps, sweeps)[key] == Unbounded(steps)[key]
    decreases |steps|
  {
    if steps == [] {
    } else {
      var n := |steps| - 1;
      assert steps[..n] != [] ==> steps[..n][n - 1].now <= steps[n].now;
      SweepsAreInvisible(steps[..n], sweeps, key, now);
    }
  }
}
