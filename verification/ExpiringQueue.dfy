/** The bounded, expiring queue behind both submit guards of the bridge: a map from key to
    time-stamped entry, and the queue of keys in the order they were inserted.

    Instants are natural numbers. `Instant::duration_since` saturates at zero, so an instant
    that reaches the guard out of order simply counts as age zero. */
module ExpiringQueue {
  import opened Collections

  type Key = string

  datatype Limits = Limits(ttl: nat, maxEntries: nat)

  datatype Entry<O> = Entry(ts: nat, outcome: O)

  datatype Queue<O> = Queue(entries: map<Key, Entry<O>>, order: seq<Key>)

  function Age(now: nat, ts: nat): nat {
    if now > ts then now - ts else 0
  }

  predicate Droppable<O>(q: Queue<O>, k: Key, ttl: nat, now: nat) {
    k !in q.entries || Age(now, q.entries[k].ts) > ttl
  }

  function DropFront<O>(q: Queue<O>): Queue<O>
    requires q.order != []
  {
    Queue(q.entries - {q.order[0]}, q.order[1..])
  }

  /** First phase of `prune`: pop the front while it is a tombstone or too old. */
  function DropExpired<O>(q: Queue<O>, ttl: nat, now: nat): Queue<O>
    decreases |q.order|
  {
    if q.order != [] && Droppable(q, q.order[0], ttl, now)
    then DropExpired(DropFront(q), ttl, now)
    else q
  }

  /** Second phase of `prune`: pop the front while the map is over capacity. */
  function DropExcess<O>(q: Queue<O>, maxEntries: nat): Queue<O>
    decreases |q.order|
  {
    if |q.entries| > maxEntries && q.order != []
    then DropExcess(DropFront(q), maxEntries)
    else q
  }

  function Prune<O>(q: Queue<O>, lim: Limits, now: nat): Queue<O> {
    DropExcess(DropExpired(q, lim.ttl, now), lim.maxEntries)
  }

  /** The two loops of `prune`, as both guards run them. */
  method RunPrune<O>(q: Queue<O>, lim: Limits, now: nat) returns (r: Queue<O>)
    ensures r == Prune(q, lim, now)
  {
    var entries, order := q.entries, q.order;
    while order != [] && Droppable(Queue(entries, order), order[0], lim.ttl, now)
      invariant DropExpired(Queue(entries, order), lim.ttl, now) == DropExpired(q, lim.ttl, now)
      decreases |order|
    {
      var key := order[0];
      entries, order := entries - {key}, order[1..];
    }
    while |entries| > lim.maxEntries && order != []
      invariant DropExcess(Queue(entries, order), lim.maxEntries) == Prune(q, lim, now)
      decreases |order|
    {
      var key := order[0];
      entries, order := entries - {key}, order[1..];
    }
    r := Queue(entries, order);
  }

  // ---------- Invariants ----------

  /** Every key of the map is somewhere in the queue; the queue may hold more. */
  ghost predicate Covered<O>(q: Queue<O>) {
    forall k :: k in q.entries ==> k in q.order
  }

  /** Queue and map are in bijection. */
  ghost predicate Exact<O>(q: Queue<O>) {
    && (forall k :: k in q.entries <==> k in q.order)
    && NoDuplicates(q.order)
  }

  lemma ExactSize<O>(q: Queue<O>)
    requires Exact(q)
    ensures |q.entries| == |q.order|
  {
    DistinctCount(q.order);
    assert q.entries.Keys == Elements(q.order);
  }

  /** A prune removes a prefix of the queue, and exactly the entries named in it. */
  ghost predicate DroppedPrefix<O>(q: Queue<O>, r: Queue<O>, n: nat) {
    && n <= |q.order|
    && r.order == q.order[n..]
    && r.entries == q.entries - Elements(q.order[..n])
  }

  lemma DropFrontPrefix<O>(q: Queue<O>, r: Queue<O>, n: nat)
    requires q.order != []
    requires DroppedPrefix(DropFront(q), r, n)
    ensures DroppedPrefix(q, r, n + 1)
  {
    assert q.order[1..][..n] == q.order[1..n + 1];
    assert q.order[..n + 1] == [q.order[0]] + q.order[1..n + 1];
    assert Elements(q.order[..n + 1]) == {q.order[0]} + Elements(q.order[1..n + 1]);
  }

  lemma {:induction false} DropExpiredPrefix<O>(q: Queue<O>, ttl: nat, now: nat) returns (n: nat)
    ensures DroppedPrefix(q, DropExpired(q, ttl, now), n)
    ensures forall i :: 0 <= i < n ==> Droppable(q, q.order[i], ttl, now)
    decreases |q.order|
  {
    if q.order != [] && Droppable(q, q.order[0], ttl, now) {
      var m := DropExpiredPrefix(DropFront(q), ttl, now);
      DropFrontPrefix(q, DropExpired(q, ttl, now), m);
      n := m + 1;
      forall i | 0 <= i < n
        ensures Droppable(q, q.order[i], ttl, now)
      {
        if i > 0 {
          assert Droppable(DropFront(q), DropFront(q).order[i - 1], ttl, now);
        }
      }
    } else {
      n := 0;
    }
  }

  lemma {:induction false} DropExcessPrefix<O>(q: Queue<O>, maxEntries: nat) returns (n: nat)
    ensures DroppedPrefix(q, DropExcess(q, maxEntries), n)
    decreases |q.order|
  {
    if |q.entries| > maxEntries && q.order != [] {
      var m := DropExcessPrefix(DropFront(q), maxEntries);
      DropFrontPrefix(q, DropExcess(q, maxEntries), m);
      n := m + 1;
    } else {
      n := 0;
    }
  }

  lemma PruneOnlyRemoves<O>(q: Queue<O>, lim: Limits, now: nat, k: Key)
    ensures k in Prune(q, lim, now).entries ==> k in q.entries && Prune(q, lim, now).entries[k] == q.entries[k]
  {
    var n := DropExpiredPrefix(q, lim.ttl, now);
    var m := DropExcessPrefix(DropExpired(q, lim.ttl, now), lim.maxEntries);
  }

  lemma DroppedPrefixCovered<O>(q: Queue<O>, r: Queue<O>, n: nat)
    requires Covered(q) && DroppedPrefix(q, r, n)
    ensures Covered(r)
  {
    assert q.order == q.order[..n] + r.order;
  }

  lemma DroppedPrefixExact<O>(q: Queue<O>, r: Queue<O>, n: nat)
    requires Exact(q) && DroppedPrefix(q, r, n)
    ensures Exact(r)
  {
    assert q.order == q.order[..n] + r.order;
    forall k ensures k in r.entries <==> k in r.order {
      if k in r.order {
        var i :| 0 <= i < |r.order| && r.order[i] == k;
        assert q.order[n + i] == k;
        assert k !in q.order[..n];
      }
    }
    forall i, j | 0 <= i < j < |r.order| ensures r.order[i] != r.order[j] {
      assert r.order[i] == q.order[n + i] && r.order[j] == q.order[n + j];
    }
  }

  /** The expiry phase never drops an entry that is not older than the ttl, whatever
      tombstones and duplicates the queue holds. */
  lemma ExpiryKeepsLive<O>(q: Queue<O>, ttl: nat, now: nat, k: Key)
    requires k in q.entries && Age(now, q.entries[k].ts) <= ttl
    ensures k in DropExpired(q, ttl, now).entries
    ensures DropExpired(q, ttl, now).entries[k] == q.entries[k]
  {
    var n := DropExpiredPrefix(q, ttl, now);
    assert k !in q.order[..n];
  }

  /** A covered queue is covered after a prune, and then within capacity. */
  lemma PruneBounds<O>(q: Queue<O>, lim: Limits, now: nat)
    requires Covered(q)
    ensures Covered(Prune(q, lim, now))
    ensures |Prune(q, lim, now).entries| <= lim.maxEntries
  {
    var n := DropExpiredPrefix(q, lim.ttl, now);
    var p := DropExpired(q, lim.ttl, now);
    DroppedPrefixCovered(q, p, n);
    ExcessBounds(p, lim.maxEntries);
  }

  lemma {:induction false} ExcessBounds<O>(q: Queue<O>, maxEntries: nat)
    requires Covered(q)
    ensures Covered(DropExcess(q, maxEntries))
    ensures |DropExcess(q, maxEntries).entries| <= maxEntries
    decreases |q.order|
  {
    if q.order == [] {
      assert q.entries == map[];
    } else if |q.entries| > maxEntries {
      FrontCovered(q);
      hide Covered, DropFront;
      ExcessBounds(DropFront(q), maxEntries);
    }
  }

  lemma FrontCovered<O>(q: Queue<O>)
    requires Covered(q) && q.order != []
    ensures Covered(DropFront(q))
  {
    assert DroppedPrefix(DropFront(q), DropFront(q), 0);
    hide Covered, DropFront, DroppedPrefix;
    DropFrontPrefix(q, DropFront(q), 0);
    DroppedPrefixCovered(q, DropFront(q), 1);
  }

  lemma PruneExact<O>(q: Queue<O>, lim: Limits, now: nat)
    requires Exact(q)
    ensures Exact(Prune(q, lim, now))
  {
    var n := DropExpiredPrefix(q, lim.ttl, now);
    var p := DropExpired(q, lim.ttl, now);
    DroppedPrefixExact(q, p, n);
    var m := DropExcessPrefix(p, lim.maxEntries);
    DroppedPrefixExact(p, Prune(q, lim, now), m);
  }

  /** What a prune cannot remove from an exact queue: an entry no older than the ttl with fewer
      than `maxEntries` keys queued behind it. */
  lemma PruneKeeps<O>(q: Queue<O>, lim: Limits, now: nat, pos: nat) returns (n: nat)
    requires Exact(q) && pos < |q.order|
    requires q.order[pos] in q.entries && Age(now, q.entries[q.order[pos]].ts) <= lim.ttl
    requires |q.order| - pos - 1 < lim.maxEntries
    ensures n <= pos && DroppedPrefix(q, Prune(q, lim, now), n)
    ensures q.order[pos] in Prune(q, lim, now).entries
    ensures Prune(q, lim, now).entries[q.order[pos]] == q.entries[q.order[pos]]
  {
    hide DropExpired, DropExcess, Exact;
    var p := DropExpired(q, lim.ttl, now);
    var a := DropExpiredPrefix(q, lim.ttl, now);
    assert a <= pos;
    DroppedPrefixExact(q, p, a);
    var b := ExcessDrops(p, lim.maxEntries);
    n := a + b;
    DroppedPrefixCompose(q, p, Prune(q, lim, now), a, b);
    KeptEntry(q, Prune(q, lim, now), n, pos);
  }

  lemma KeptEntry<O>(q: Queue<O>, r: Queue<O>, n: nat, pos: nat)
    requires Exact(q) && DroppedPrefix(q, r, n) && n <= pos < |q.order|
    ensures q.order[pos] in r.entries
    ensures r.entries[q.order[pos]] == q.entries[q.order[pos]]
  {
    assert q.order[pos] !in q.order[..n];
  }

  lemma DroppedPrefixCompose<O>(q: Queue<O>, p: Queue<O>, r: Queue<O>, a: nat, b: nat)
    requires DroppedPrefix(q, p, a) && DroppedPrefix(p, r, b)
    ensures DroppedPrefix(q, r, a + b)
  {
    assert q.order[a..][b..] == q.order[a + b..];
    assert q.order[..a + b] == q.order[..a] + p.order[..b];
    assert Elements(q.order[..a + b]) == Elements(q.order[..a]) + Elements(p.order[..b]);
  }

  /** The capacity phase drops from an exact queue as many keys as it is over capacity. */
  lemma {:induction false} ExcessDrops<O>(q: Queue<O>, maxEntries: nat) returns (n: nat)
    requires Exact(q)
    ensures DroppedPrefix(q, DropExcess(q, maxEntries), n)
    ensures n == if |q.order| > maxEntries then |q.order| - maxEntries else 0
    decreases |q.order|
  {
    hide Exact, DroppedPrefix, DropFront;
    ExactSize(q);
    if |q.order| > maxEntries {
      FrontExact(q);
      var p := DropFront(q);
      var m := ExcessDrops(p, maxEntries);
      DropFrontPrefix(q, DropExcess(p, maxEntries), m);
      n := m + 1;
    } else {
      NothingDropped(q);
      n := 0;
    }
  }

  lemma NothingDropped<O>(q: Queue<O>)
    ensures DroppedPrefix(q, q, 0)
  {
  }

  lemma FrontExact<O>(q: Queue<O>)
    requires Exact(q) && q.order != []
    ensures Exact(DropFront(q)) && |DropFront(q).order| == |q.order| - 1
  {
    NothingDropped(DropFront(q));
    DropFrontPrefix(q, DropFront(q), 0);
    DroppedPrefixExact(q, DropFront(q), 1);
  }

  /** The expiry phase goes on until the front is an entry that is not expired. */
  lemma {:induction false} ExpiryStops<O>(q: Queue<O>, ttl: nat, now: nat)
    ensures var r := DropExpired(q, ttl, now); r.order == [] || !Droppable(r, r.order[0], ttl, now)
    decreases |q.order|
  {
    if q.order != [] && Droppable(q, q.order[0], ttl, now) {
      ExpiryStops(DropFront(q), ttl, now);
    }
  }

  /** The place in the queue from which on a prune keeps everything. */
  lemma PrunePrefix<O>(q: Queue<O>, lim: Limits, now: nat) returns (n: nat, m: nat)
    requires Exact(q)
    ensures n + m <= |q.order| && DroppedPrefix(q, Prune(q, lim, now), n + m)
    ensures forall i :: 0 <= i < n ==> Droppable(q, q.order[i], lim.ttl, now)
    ensures n < |q.order| ==> !Droppable(q, q.order[n], lim.ttl, now)
    ensures m == if |q.order| - n > lim.maxEntries then |q.order| - n - lim.maxEntries else 0
  {
    var p := DropExpired(q, lim.ttl, now);
    n := DropExpiredPrefix(q, lim.ttl, now);
    ExpiryStops(q, lim.ttl, now);
    DroppedPrefixExact(q, p, n);
    hide DropExpired, DropExcess, Exact;
    m := ExcessDrops(p, lim.maxEntries);
    DroppedPrefixCompose(q, p, Prune(q, lim, now), n, m);
  }

  lemma SurvivesFrom<O>(q: Queue<O>, r: Queue<O>, n: nat, pos: nat)
    requires Exact(q) && DroppedPrefix(q, r, n) && pos < |q.order|
    ensures q.order[pos] in r.entries <==> n <= pos
  {
    if n <= pos {
      KeptEntry(q, r, n, pos);
    } else {
      assert q.order[pos] == q.order[..n][pos];
    }
  }

  /** Exactly what a prune leaves of an exact queue: a key stays if and only if some key no further
      back is not expired, so that an expired one may linger behind it, and fewer than `maxEntries`
      keys are queued behind it. */
  lemma PruneLeaves<O>(q: Queue<O>, lim: Limits, now: nat, pos: nat)
    requires Exact(q) && pos < |q.order|
    ensures q.order[pos] in Prune(q, lim, now).entries
            <==> (exists i :: 0 <= i <= pos && !Droppable(q, q.order[i], lim.ttl, now)) && |q.order| - pos - 1 < lim.maxEntries
  {
    var n, m := PrunePrefix(q, lim, now);
    SurvivesFrom(q, Prune(q, lim, now), n + m, pos);
    hide Prune, Droppable;
    if n <= pos {
      assert !Droppable(q, q.order[n], lim.ttl, now);
    }
  }

  // ---------- Queues with tombstones and repeats ----------

  /** `pos` is the first place of `k` in the queue. */
  ghost predicate FirstPlace(order: seq<Key>, k: Key, pos: nat) {
    pos < |order| && order[pos] == k && k !in order[..pos]
  }

  /** How many live keys have no place before `pos`. */
  ghost function LiveFrom<O>(q: Queue<O>, pos: nat): nat
    requires pos <= |q.order|
  {
    |q.entries.Keys - Elements(q.order[..pos])|
  }

  lemma DropFrontLive<O>(q: Queue<O>, pos: nat)
    requires 0 < pos <= |q.order|
    ensures LiveFrom(DropFront(q), pos - 1) == LiveFrom(q, pos)
  {
    var p := DropFront(q);
    assert q.order[..pos] == [q.order[0]] + p.order[..pos - 1];
    assert Elements(q.order[..pos]) == {q.order[0]} + Elements(p.order[..pos - 1]);
    assert p.entries.Keys - Elements(p.order[..pos - 1]) == q.entries.Keys - Elements(q.order[..pos]);
  }

  lemma LiveFromStart<O>(q: Queue<O>, pos: nat)
    requires pos <= |q.order|
    ensures LiveFrom(q, 0) == |q.entries| && LiveFrom(q, pos) <= |q.entries|
  {
    assert q.entries.Keys - Elements(q.order[..0]) == q.entries.Keys;
    SubsetSize(q.entries.Keys - Elements(q.order[..pos]), q.entries.Keys);
  }

  lemma DropFrontPlace<O>(q: Queue<O>, k: Key, pos: nat)
    requires k in q.entries && FirstPlace(q.order, k, pos) && pos > 0
    ensures k in DropFront(q).entries && FirstPlace(DropFront(q).order, k, pos - 1)
  {
    assert q.order[0] in q.order[..pos];
    assert q.order[1..][..pos - 1] == q.order[1..pos];
    assert forall x :: x in q.order[1..pos] ==> x in q.order[..pos];
  }

  lemma {:induction false} ExcessOnlyRemoves<O>(q: Queue<O>, maxEntries: nat, k: Key)
    requires k !in q.entries
    ensures k !in DropExcess(q, maxEntries).entries
    decreases |q.order|
  {
    if |q.entries| > maxEntries && q.order != [] {
      ExcessOnlyRemoves(DropFront(q), maxEntries, k);
    }
  }

  /** The capacity phase keeps a live key exactly when the live keys without a place before its
      first one fit: a key marked again counts from its oldest tombstone. */
  lemma {:induction false} ExcessLeaves<O>(q: Queue<O>, maxEntries: nat, k: Key, pos: nat)
    requires k in q.entries && FirstPlace(q.order, k, pos)
    ensures k in DropExcess(q, maxEntries).entries <==> LiveFrom(q, pos) <= maxEntries
    decreases |q.order|
  {
    hide LiveFrom;
    LiveFromStart(q, pos);
    if |q.entries| > maxEntries {
      if pos == 0 {
        ExcessOnlyRemoves(DropFront(q), maxEntries, k);
      } else {
        DropFrontPlace(q, k, pos);
        DropFrontLive(q, pos);
        hide FirstPlace, DropFront;
        ExcessLeaves(DropFront(q), maxEntries, k, pos - 1);
      }
    }
  }

  /** The expiry phase drops a live key exactly when every key up to its first place may go. */
  lemma ExpiryLeaves<O>(q: Queue<O>, ttl: nat, now: nat, k: Key, pos: nat) returns (n: nat)
    requires k in q.entries && FirstPlace(q.order, k, pos)
    ensures DroppedPrefix(q, DropExpired(q, ttl, now), n)
    ensures n <= pos <==> exists i :: 0 <= i <= pos && !Droppable(q, q.order[i], ttl, now)
    ensures k in DropExpired(q, ttl, now).entries <==> n <= pos
  {
    n := DropExpiredPrefix(q, ttl, now);
    ExpiryStops(q, ttl, now);
    var r := DropExpired(q, ttl, now);
    if n <= pos {
      assert r.order[0] == q.order[n];
      assert !Droppable(q, q.order[n], ttl, now);
      assert k !in q.order[..n] by {
        assert q.order[..n] <= q.order[..pos];
      }
    } else {
      assert q.order[pos] == q.order[..n][pos];
    }
  }

  /** Exactly what a prune leaves of any queue whose live keys are queued: a live key stays if and
      only if some key up to its first place is live and not expired, and the live keys without a
      place before that fit the capacity. */
  lemma LivePruned<O>(q: Queue<O>, lim: Limits, now: nat, k: Key, pos: nat)
    requires k in q.entries && FirstPlace(q.order, k, pos)
    ensures k in Prune(q, lim, now).entries
            <==> (exists i :: 0 <= i <= pos && !Droppable(q, q.order[i], lim.ttl, now)) && LiveFrom(q, pos) <= lim.maxEntries
  {
    hide LiveFrom, Droppable, DropExpired, DropExcess;
    var n := ExpiryLeaves(q, lim.ttl, now, k, pos);
    var r := DropExpired(q, lim.ttl, now);
    if n <= pos {
      PlaceAfter(q, r, n, k, pos);
      ExcessLeaves(r, lim.maxEntries, k, pos - n);
    } else {
      ExcessOnlyRemoves(r, lim.maxEntries, k);
    }
  }

  lemma PlaceAfter<O>(q: Queue<O>, r: Queue<O>, n: nat, k: Key, pos: nat)
    requires k in q.entries && FirstPlace(q.order, k, pos) && DroppedPrefix(q, r, n) && n <= pos
    ensures FirstPlace(r.order, k, pos - n) && LiveFrom(r, pos - n) == LiveFrom(q, pos)
  {
    assert q.order[..pos] == q.order[..n] + r.order[..pos - n];
    assert Elements(q.order[..pos]) == Elements(q.order[..n]) + Elements(r.order[..pos - n]);
    assert r.entries.Keys - Elements(r.order[..pos - n]) == q.entries.Keys - Elements(q.order[..pos]);
  }
}
