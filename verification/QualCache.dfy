/** The in-memory cache of qualification answers: lazy expiry on reads, a background sweep, and its client. */
module QualCache {
  import opened Text

  type Key = (string, string)

  /** A qualification answer; error is set when the live call reported one. */
  datatype Qual = Qual(bidNo: string, bidSeq: string, payload: string, error: Option<string>)

  datatype Entry = Entry(qual: Qual, expiresAt: int)

  datatype Settings = Settings(enabled: bool, ttl: int)

  function KeyOf(q: Qual): Key { (q.bidNo, q.bidSeq) }

  predicate Failed(q: Qual) { q.error.Some? && q.error.value != "" }

  /** The critical sections, with the time each one works with. A sweep reads the clock before it
      takes the lock, so its time may be older than that of operations already done. */
  datatype Op = Get(key: Key, now: int) | Set(qual: Qual, now: int) | Clear | Sweep(now: int)

  // ---- the cache ----

  function Looked(cfg: Settings, entries: map<Key, Entry>, key: Key, now: int): Option<Qual> {
    if cfg.enabled && key in entries && entries[key].expiresAt > now then Some(entries[key].qual) else None
  }

  function Swept(entries: map<Key, Entry>, now: int): map<Key, Entry> {
    map k | k in entries && entries[k].expiresAt > now :: entries[k]
  }

  function Stepped(cfg: Settings, entries: map<Key, Entry>, op: Op): map<Key, Entry> {
    match op
    case Get(key, now) =>
      if cfg.enabled && key in entries && entries[key].expiresAt <= now then entries - {key} else entries
    case Set(q, now) =>
      if cfg.enabled && !Failed(q) then entries[KeyOf(q) := Entry(q, now + cfg.ttl)] else entries
    case Clear => map[]
    case Sweep(now) => Swept(entries, now)
  }

  function After(cfg: Settings, ops: seq<Op>): map<Key, Entry> {
    if ops == [] then map[] else Stepped(cfg, After(cfg, ops[..|ops| - 1]), ops[|ops| - 1])
  }

  // ---- what it should answer, from the history alone ----

  /** The last store for the key that carried no error, since the last clear, with its time. */
  function LastStored(ops: seq<Op>, key: Key): Option<(Qual, int)> {
    if ops == [] then None
    else
      var last := ops[|ops| - 1];
      if last.Clear? then None
      else if last.Set? && !Failed(last.qual) && KeyOf(last.qual) == key then Some((last.qual, last.now))
      else LastStored(ops[..|ops| - 1], key)
  }

  function Expected(cfg: Settings, ops: seq<Op>, key: Key, now: int): Option<Qual> {
    if !cfg.enabled then None
    else
      match LastStored(ops, key)
      case Some((q, at)) => if now < at + cfg.ttl then Some(q) else None
      case None => None
  }

  /** No later time than this has been read so far. */
  predicate NotBefore(ops: seq<Op>, now: int) {
    forall i :: 0 <= i < |ops| && !ops[i].Clear? ==> ops[i].now <= now
  }

  /** A non-decreasing clock: reads and stores see times in order; only a sweep may lag behind. */
  predicate ClockOk(ops: seq<Op>) {
    forall i :: 0 <= i < |ops| && (ops[i].Get? || ops[i].Set?) ==> NotBefore(ops[..i], ops[i].now)
  }

  /** What connects the table with the history at any moment from now on. */
  ghost predicate Tracks(cfg: Settings, entries: map<Key, Entry>, ops: seq<Op>, key: Key, now: int) {
    var last := LastStored(ops, key);
    && (key in entries ==> cfg.enabled && last.Some? && entries[key] == Entry(last.value.0, last.value.1 + cfg.ttl))
    && (cfg.enabled && key !in entries && last.Some? ==> last.value.1 + cfg.ttl <= now)
  }

  lemma ClockOkFront(ops: seq<Op>)
    requires ops != [] && ClockOk(ops)
    ensures ClockOk(ops[..|ops| - 1])
    ensures ops[|ops| - 1].Get? || ops[|ops| - 1].Set? ==> NotBefore(ops[..|ops| - 1], ops[|ops| - 1].now)
  {
  }

  lemma {:induction false} TableTracksHistory(cfg: Settings, ops: seq<Op>, key: Key, now: int)
    requires ClockOk(ops) && NotBefore(ops, now)
    ensures Tracks(cfg, After(cfg, ops), ops, key, now)
  {
    if ops != [] {
      var front, last := ops[..|ops| - 1], ops[|ops| - 1];
      ClockOkFront(ops);
      assert forall i :: 0 <= i < |front| ==> front[i] == ops[i];
      TableTracksHistory(cfg, front, key, now);
    }
  }

  /** Under every interleaving a read answers exactly what the history says. */
  lemma {:induction false} GetAnswersHistory(cfg: Settings, ops: seq<Op>, key: Key, now: int)
    requires ClockOk(ops) && NotBefore(ops, now)
    ensures Looked(cfg, After(cfg, ops), key, now) == Expected(cfg, ops, key, now)
  {
    TableTracksHistory(cfg, ops, key, now);
  }

  lemma {:induction false} LastStoredIgnores(before: seq<Op>, sweepAt: int, after: seq<Op>, key: Key)
    ensures LastStored(before + [Sweep(sweepAt)] + after, key) == LastStored(before + after, key)
  {
    var a, b := before + [Sweep(sweepAt)] + after, before + after;
    if after == [] {
      assert a[..|a| - 1] == before && b == before;
    } else {
      var front := after[..|after| - 1];
      LastStoredIgnores(before, sweepAt, front, key);
      assert a[..|a| - 1] == before + [Sweep(sweepAt)] + front && b[..|b| - 1] == before + front;
    }
  }

  /** A history with a good clock keeps it when a sweep is left out. */
  lemma ClockWithoutSweep(before: seq<Op>, sweepAt: int, after: seq<Op>, now: int)
    requires ClockOk(before + [Sweep(sweepAt)] + after) && NotBefore(before + [Sweep(sweepAt)] + after, now)
    ensures ClockOk(before + after) && NotBefore(before + after, now)
  {
    var a, b := before + [Sweep(sweepAt)] + after, before + after;
    forall i | 0 <= i < |b|
      ensures b[i] == a[if i < |before| then i else i + 1]
    {
    }
    forall i | 0 <= i < |b| && (b[i].Get? || b[i].Set?)
      ensures NotBefore(b[..i], b[i].now)
    {
      var j := if i < |before| then i else i + 1;
      assert a[j] == b[i] && NotBefore(a[..j], a[j].now);
      forall k | 0 <= k < i && !b[k].Clear?
        ensures b[k].now <= b[i].now
      {
        assert a[..j][if k < |before| then k else k + 1] == b[k];
      }
    }
  }

  /** Leaving a sweep out changes no later answer of the cache. */
  lemma {:induction false} SweepIsInvisible(cfg: Settings, before: seq<Op>, sweepAt: int, after: seq<Op>, key: Key,
                                            now: int)
    requires ClockOk(before + [Sweep(sweepAt)] + after) && NotBefore(before + [Sweep(sweepAt)] + after, now)
    ensures Looked(cfg, After(cfg, before + [Sweep(sweepAt)] + after), key, now)
        == Looked(cfg, After(cfg, before + after), key, now)
  {
    ClockWithoutSweep(before, sweepAt, after, now);
    GetAnswersHistory(cfg, before + [Sweep(sweepAt)] + after, key, now);
    GetAnswersHistory(cfg, before + after, key, now);
    LastStoredIgnores(before, sweepAt, after, key);
  }

  /** The client never goes to the network while an unexpired answer is on record, and then returns that answer. */
  lemma {:induction false} LiveCallOnlyWhenUnknown(cfg: Settings, ops: seq<Op>, bidNo: string, bidSeq: string, now: int)
    requires ClockOk(ops) && NotBefore(ops, now)
    ensures NeedsLiveCall(cfg, After(cfg, ops), bidNo, bidSeq, now)
            <==> bidNo != "" && bidSeq != "" && Expected(cfg, ops, (bidNo, bidSeq), now) == None
  {
    GetAnswersHistory(cfg, ops, (bidNo, bidSeq), now);
  }

  predicate NeedsLiveCall(cfg: Settings, entries: map<Key, Entry>, bidNo: string, bidSeq: string, now: int) {
    bidNo != "" && bidSeq != "" && Looked(cfg, entries, (bidNo, bidSeq), now) == None
  }

  class Cache {
    const cfg: Settings
    var entries: map<Key, Entry>

    constructor (cfg: Settings)
      ensures this.cfg == cfg && entries == After(cfg, [])
    {
      this.cfg := cfg;
      entries := map[];
    }

    method Get(bidNo: string, bidSeq: string, now: int) returns (r: Option<Qual>)
      modifies this
      ensures entries == Stepped(cfg, old(entries), Op.Get((bidNo, bidSeq), now))
      ensures r == Looked(cfg, old(entries), (bidNo, bidSeq), now)
    {
      if !cfg.enabled { return None; }
      var key := (bidNo, bidSeq);
      if key !in entries { return None; }
      var entry := entries[key];
      if entry.expiresAt <= now {
        entries := entries - {key};
        return None;
      }
      r := Some(entry.qual);
    }

    method Set(q: Qual, now: int)
      modifies this
      ensures entries == Stepped(cfg, old(entries), Op.Set(q, now))
    {
      if !cfg.enabled { return; }
      if Failed(q) { return; }
      entries := entries[KeyOf(q) := Entry(q, now + cfg.ttl)];
    }

    method Clear()
      modifies this
      ensures entries == Stepped(cfg, old(entries), Op.Clear)
    {
      entries := map[];
    }

    /** Collects the expired keys first, then pops them one by one. */
    method CleanupExpired(now: int) returns (removed: nat)
      modifies this
      ensures entries == Stepped(cfg, old(entries), Op.Sweep(now))
      ensures removed == |old(entries)| - |entries|
    {
      var expired := set k | k in entries && entries[k].expiresAt <= now;
      removed := |expired|;
      var todo := expired;
      while todo != {}
        invariant todo <= expired
        invariant entries == old(entries) - (expired - todo)
        decreases todo
      {
        var k :| k in todo;
        RemoveOne(old(entries), expired, todo, k);
        entries := entries - {k};
        todo := todo - {k};
      }
      SweptIsMinus(old(entries), expired, now);
    }

    /** fetch_qual_safe: live is the answer the call would give, None when it raises. */
    method FetchQualSafe(bidNo: string, bidSeq: string, now: int, live: Option<Qual>, later: int)
      returns (r: Option<Qual>, called: bool)
      modifies this
      ensures called <==> NeedsLiveCall(cfg, old(entries), bidNo, bidSeq, now)
      ensures bidNo == "" || bidSeq == "" ==> r == None && entries == old(entries)
      ensures bidNo != "" && bidSeq != "" ==>
        var hit := Looked(cfg, old(entries), (bidNo, bidSeq), now);
        var afterGet := Stepped(cfg, old(entries), Op.Get((bidNo, bidSeq), now));
        && r == (if hit.Some? then hit else live)
        && entries == (if called && live.Some? then Stepped(cfg, afterGet, Op.Set(live.value, later)) else afterGet)
    {
      if bidNo == "" || bidSeq == "" { return None, false; }
      r := Get(bidNo, bidSeq, now);
      if r.Some? { return r, false; }
      called := true;
      if live.None? { return None, true; }
      Set(live.value, later);
      r := live;
    }
  }

  lemma RemoveOne(entries: map<Key, Entry>, expired: set<Key>, todo: set<Key>, k: Key)
    requires todo <= expired && k in todo
    ensures entries - (expired - todo) - {k} == entries - (expired - (todo - {k}))
  {
  }

  lemma SweptIsMinus(entries: map<Key, Entry>, expired: set<Key>, now: int)
    requires forall k :: k in expired <==> k in entries && entries[k].expiresAt <= now
    ensures entries - expired == Swept(entries, now)
    ensures |entries - expired| == |entries| - |expired|
  {
  }

}
