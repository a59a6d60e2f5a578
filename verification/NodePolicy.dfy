/**
 Execution of a node under its policies: a bounded, time-limited cache of outputs in front of the
 retry loop, and an error handler behind it.
 */
module NodePolicy {
  import opened Prelude
  import opened Retry

  /** A cached output and the moment it expires, if any. */
  datatype Entry<V> = Entry(expiresAt: Option<real>, value: V)

  /** The entries with their keys in order of insertion, oldest first. */
  datatype Cache<V> = Cache(order: seq<string>, entries: map<string, Entry<V>>)

  /**
   What the nodes that share a cache and their policies fix.  All nodes of one name share one, so an input
   says which of them it is for: `key` is its cache key, `node` the attempts of that node on it, `retry`,
   `handler` and `ttl` that node's policies.
   */
  datatype Setup<!I, !V> = Setup(
    key: I -> string, node: I -> (nat -> Attempt<V>), retry: I -> Option<RetryPolicy>,
    handler: I -> Option<Failure -> Attempt<V>>, ttl: I -> Option<real>, maxEntries: nat)

  function EmptyCache<V>(): Cache<V> {
    Cache([], map[])
  }

  predicate Expired<V>(e: Entry<V>, now: real) {
    e.expiresAt.Some? && e.expiresAt.value < now
  }

  function Without(order: seq<string>, key: string): (rest: seq<string>)
    ensures |rest| <= |order| && (key in order ==> |rest| < |order|)
    ensures forall k :: k in rest <==> k in order && k != key
  {
    if order == [] then []
    else
      FrontAndLast(order);
      var n := |order| - 1;
      var rest := Without(order[..n], key);
      if order[n] == key then rest else rest + [order[n]]
  }

  function Drop<V>(c: Cache<V>, key: string): Cache<V> {
    Cache(Without(c.order, key), c.entries - {key})
  }

  /** A lookup; an expired entry is dropped and missed. */
  function Get<V>(c: Cache<V>, key: string, now: real): (Cache<V>, Option<V>) {
    if key !in c.entries then (c, None)
    else if Expired(c.entries[key], now) then (Drop(c, key), None)
    else (c, Some(c.entries[key].value))
  }

  /** A full cache gives up its oldest entry first, even to overwrite another; an overwritten key keeps its place. */
  function Set<V>(c: Cache<V>, maxEntries: nat, key: string, value: V, ttl: Option<real>, now: real): Cache<V> {
    var expiresAt := if ttl.Some? then Some(now + ttl.value) else None;
    var room := if |c.order| >= maxEntries && c.order != [] then Drop(c, c.order[0]) else c;
    Cache(if key in room.entries then room.order else room.order + [key],
          room.entries[key := Entry(expiresAt, value)])
  }

  ghost predicate NoRepeats(s: seq<string>) {
    forall i, j :: 0 <= i < j < |s| ==> s[i] != s[j]
  }

  /** The order lists the keys of the entries, each once. */
  ghost predicate Valid<V>(c: Cache<V>) {
    && (forall k :: k in c.order <==> k in c.entries)
    && NoRepeats(c.order)
  }

  lemma {:induction false} WithoutKeepsOrder(order: seq<string>, key: string)
    requires NoRepeats(order)
    ensures NoRepeats(Without(order, key))
    decreases |order|
  {
    if order != [] {
      var n := |order| - 1;
      FrontAndLast(order);
      WithoutKeepsOrder(order[..n], key);
      var rest := Without(order[..n], key);
      assert forall i :: 0 <= i < |rest| ==> rest[i] in rest;
      assert order[n] !in order[..n];
    }
  }

  lemma DropKeepsValid<V>(c: Cache<V>, key: string)
    requires Valid(c)
    ensures Valid(Drop(c, key))
  {
    WithoutKeepsOrder(c.order, key);
  }

  /** With room for at least one entry the cache never holds more than its maximum. */
  lemma SetKeepsBound<V>(c: Cache<V>, maxEntries: nat, key: string, value: V, ttl: Option<real>, now: real)
    requires Valid(c) && |c.order| <= maxEntries && maxEntries >= 1
    ensures var c' := Set(c, maxEntries, key, value, ttl, now); Valid(c') && |c'.order| <= maxEntries
  {
    if |c.order| >= maxEntries {
      DropKeepsValid(c, c.order[0]);
      assert c.order[0] in c.order;
    }
  }

  lemma {:induction false} WithoutFirst(order: seq<string>)
    requires order != [] && NoRepeats(order)
    ensures Without(order, order[0]) == order[1..]
    decreases |order|
  {
    var n := |order| - 1;
    FrontAndLast(order);
    if n > 0 {
      WithoutFirst(order[..n]);
      assert order[..n][1..] + [order[n]] == order[1..];
    }
  }

  /** One output to be stored. */
  datatype Output<V> = Output(key: string, value: V, now: real)

  function SetAll<V>(c: Cache<V>, maxEntries: nat, ttl: Option<real>, outputs: seq<Output<V>>): Cache<V>
    decreases |outputs|
  {
    if outputs == [] then c
    else
      var o := outputs[0];
      SetAll(Set(c, maxEntries, o.key, o.value, ttl, o.now), maxEntries, ttl, outputs[1..])
  }

  /** A store moves the other entries up by one place if the cache is full, and not at all otherwise. */
  lemma SetMovesUp<V>(c: Cache<V>, maxEntries: nat, o: Output<V>, ttl: Option<real>, p: nat)
    requires Valid(c) && p < |c.order| && p >= 1
    ensures var c' := Set(c, maxEntries, o.key, o.value, ttl, o.now);
            var p' := if |c.order| >= maxEntries then p - 1 else p;
            p' < |c'.order| && c'.order[p'] == c.order[p]
  {
    WithoutFirst(c.order);
    hide Without, Valid;
    assert c.order[1..][p - 1] == c.order[p];
  }

  /** Eviction takes the oldest first: the entry at place `p` outlives the next `p` stores, whatever they store. */
  lemma {:induction false} OldestGoesFirst<V>(c: Cache<V>, maxEntries: nat, ttl: Option<real>,
                                              outputs: seq<Output<V>>, p: nat)
    requires Valid(c) && |c.order| <= maxEntries && p < |c.order| && |outputs| <= p
    ensures c.order[p] in SetAll(c, maxEntries, ttl, outputs).entries
    decreases |outputs|
  {
    assert c.order[p] in c.order;
    hide Set;
    if outputs != [] {
      var o := outputs[0];
      SetKeepsBound(c, maxEntries, o.key, o.value, ttl, o.now);
      SetMovesUp(c, maxEntries, o, ttl, p);
      OldestGoesFirst(Set(c, maxEntries, o.key, o.value, ttl, o.now), maxEntries, ttl, outputs[1..],
                      if |c.order| >= maxEntries then p - 1 else p);
    }
  }

  // ----- Executions -----

  /** What an execution without a cache answers. */
  function Uncached<I, V>(s: Setup<I, V>, input: I): Attempt<V> {
    match Outcome(s.retry(input), s.node(input))
    case Value(v) => Value(v)
    case Raises(f) => if s.handler(input).Some? then s.handler(input).value(f) else Raises(f)
  }

  /** The cache is consulted at one moment and written at a later one; other executions may come between. */
  datatype Step<I> = Lookup(input: I, now: real) | Store(input: I, now: real)

  /** Only the value of a successful run of the node is ever stored. */
  predicate Enabled<I, V>(s: Setup<I, V>, step: Step<I>) {
    step.Store? ==> Outcome(s.retry(step.input), s.node(step.input)).Value?
  }

  function Next<I, V>(s: Setup<I, V>, c: Cache<V>, step: Step<I>): Cache<V> {
    match step
    case Lookup(input, now) => Get(c, s.key(input), now).0
    case Store(input, now) =>
      (match Outcome(s.retry(input), s.node(input))
       case Value(v) => Set(c, s.maxEntries, s.key(input), v, s.ttl(input), now)
       case Raises(_) => c)
  }

  function CacheAfter<I, V>(s: Setup<I, V>, steps: seq<Step<I>>): Cache<V> {
    if steps == [] then EmptyCache() else Next(s, CacheAfter(s, steps[..|steps| - 1]), steps[|steps| - 1])
  }

  /** What an execution that starts with lookup `i` answers: the hit, or what the node and the handler give. */
  function Answer<I, V>(s: Setup<I, V>, steps: seq<Step<I>>, i: nat): Attempt<V>
    requires i < |steps| && steps[i].Lookup?
  {
    var hit := Get(CacheAfter(s, steps[..i]), s.key(steps[i].input), steps[i].now).1;
    if hit.Some? then Value(hit.value) else Uncached(s, steps[i].input)
  }

  ghost predicate Legal<I, V>(s: Setup<I, V>, steps: seq<Step<I>>) {
    forall i :: 0 <= i < |steps| ==> Enabled(s, steps[i])
  }

  /** Entry `e` under `key` is what step `j` stored. */
  ghost predicate StoredBy<I, V>(s: Setup<I, V>, steps: seq<Step<I>>, j: int, key: string, e: Entry<V>) {
    && 0 <= j < |steps| && steps[j].Store? && s.key(steps[j].input) == key
    && Outcome(s.retry(steps[j].input), s.node(steps[j].input)) == Value(e.value)
    && var ttl := s.ttl(steps[j].input);
       e.expiresAt == if ttl.Some? then Some(steps[j].now + ttl.value) else None
  }

  /** Every entry has a store it comes from. */
  ghost predicate Sourced<I, V>(s: Setup<I, V>, steps: seq<Step<I>>, c: Cache<V>) {
    forall key :: key in c.entries ==> exists j :: StoredBy(s, steps, j, key, c.entries[key])
  }

  lemma {:induction false} CacheInvariant<I, V>(s: Setup<I, V>, steps: seq<Step<I>>)
    requires s.maxEntries >= 1
    ensures var c := CacheAfter(s, steps);
            Valid(c) && |c.order| <= s.maxEntries && Sourced(s, steps, c)
    decreases |steps|
  {
    if steps != [] {
      var n := |steps| - 1;
      var before := CacheAfter(s, steps[..n]);
      CacheInvariant(s, steps[..n]);
      forall key | key in before.entries
        ensures exists j :: StoredBy(s, steps, j, key, before.entries[key])
      {
        var j :| StoredBy(s, steps[..n], j, key, before.entries[key]);
        assert StoredBy(s, steps, j, key, before.entries[key]);
      }
      StepKeepsInvariant(s, steps, before);
    }
  }

  lemma StepKeepsInvariant<I, V>(s: Setup<I, V>, steps: seq<Step<I>>, before: Cache<V>)
    requires s.maxEntries >= 1 && steps != []
    requires Valid(before) && |before.order| <= s.maxEntries && Sourced(s, steps, before)
    ensures var c := Next(s, before, steps[|steps| - 1]);
            Valid(c) && |c.order| <= s.maxEntries && Sourced(s, steps, c)
  {
    hide Without;
    var n := |steps| - 1;
    match steps[n]
    case Lookup(input, now) => DropKeepsValid(before, s.key(input));
    case Store(input, now) =>
      match Outcome(s.retry(input), s.node(input)) {
        case Value(v) =>
          SetKeepsBound(before, s.maxEntries, s.key(input), v, s.ttl(input), now);
          var c := Set(before, s.maxEntries, s.key(input), v, s.ttl(input), now);
          assert StoredBy(s, steps, n, s.key(input), c.entries[s.key(input)]);
        case Raises(_) =>
      }
  }

  /**
   Every hit is the value of a successful run of the node for the same key, stored no longer than the
   time to live ago; in particular no error handler's result is ever served from the cache.
   */
  lemma HitsAreFreshSuccesses<I, V>(s: Setup<I, V>, steps: seq<Step<I>>, i: nat)
    requires s.maxEntries >= 1 && i < |steps| && steps[i].Lookup?
    requires Get(CacheAfter(s, steps[..i]), s.key(steps[i].input), steps[i].now).1.Some?
    ensures exists j :: 0 <= j < i && steps[j].Store? && s.key(steps[j].input) == s.key(steps[i].input)
              && Outcome(s.retry(steps[j].input), s.node(steps[j].input)) == Answer(s, steps, i)
              && var ttl := s.ttl(steps[j].input); ttl.Some? ==> steps[i].now - steps[j].now <= ttl.value
  {
    CacheInvariant(s, steps[..i]);
    var c := CacheAfter(s, steps[..i]);
    var key := s.key(steps[i].input);
    var j :| StoredBy(s, steps[..i], j, key, c.entries[key]);
    assert steps[..i][j] == steps[j];
  }

  /** On a miss the settling attempt decides: its value, what the handler makes of its failure, or the failure. */
  lemma MissRunsNode<I, V>(s: Setup<I, V>, steps: seq<Step<I>>, i: nat)
    requires i < |steps| && steps[i].Lookup?
    requires Get(CacheAfter(s, steps[..i]), s.key(steps[i].input), steps[i].now).1.None?
    ensures var input := steps[i].input;
            var last := s.node(input)(Settled(s.retry(input), s.node(input), 0));
            && (last.Value? ==> Answer(s, steps, i) == last)
            && (last.Raises? && s.handler(input).Some? ==>
                  Answer(s, steps, i) == s.handler(input).value(last.failure))
            && (last.Raises? && s.handler(input).None? ==> Answer(s, steps, i) == last)
  {
    hide Settled, Get, CacheAfter;
  }

  /** A lookup removes nothing but an expired entry of its own key. */
  lemma LookupKeepsOthers<V>(c: Cache<V>, key: string, now: real, other: string)
    requires other in c.entries
    requires other != key || c.entries[other].expiresAt.None? || now <= c.entries[other].expiresAt.value
    ensures var (after, hit) := Get(c, key, now);
            && other in after.entries && after.entries[other] == c.entries[other]
            && (other == key ==> hit == Some(c.entries[other].value))
  {
  }

  /**
   A stored output is found again: until another one is stored, a lookup of its key no later than its time
   to live answers it, whatever other lookups come first.
   */
  lemma {:induction false} StoredIsFound<I, V>(s: Setup<I, V>, steps: seq<Step<I>>, j: nat, i: nat)
    requires j < i <= |steps| && steps[j].Store?
    requires Outcome(s.retry(steps[j].input), s.node(steps[j].input)).Value?
    requires forall k :: j < k < i ==> steps[k].Lookup?
    requires var ttl := s.ttl(steps[j].input);
             ttl.Some? ==> forall k :: j < k < i ==> steps[k].now <= steps[j].now + ttl.value
    ensures var key := s.key(steps[j].input);
            var ttl := s.ttl(steps[j].input);
            && key in CacheAfter(s, steps[..i]).entries
            && Value(CacheAfter(s, steps[..i]).entries[key].value)
               == Outcome(s.retry(steps[j].input), s.node(steps[j].input))
            && CacheAfter(s, steps[..i]).entries[key].expiresAt
               == if ttl.Some? then Some(steps[j].now + ttl.value) else None
    decreases i
  {
    var key := s.key(steps[j].input);
    assert steps[..i][..i - 1] == steps[..i - 1] && steps[..i][i - 1] == steps[i - 1];
    hide Outcome;
    if j < i - 1 {
      StoredIsFound(s, steps, j, i - 1);
      LookupKeepsOthers(CacheAfter(s, steps[..i - 1]), s.key(steps[i - 1].input), steps[i - 1].now, key);
    }
  }

  // ----- Transparency -----

  /** Inputs that share a key with an input on which the node succeeds are answered alike without a cache. */
  ghost predicate KeysSeparate<I(!new), V>(s: Setup<I, V>) {
    forall a: I, b: I :: s.key(a) == s.key(b) && Outcome(s.retry(a), s.node(a)).Value? ==>
      Uncached(s, b) == Outcome(s.retry(a), s.node(a))
  }

  ghost predicate Transparent<I(!new), V>(s: Setup<I, V>) {
    forall steps: seq<Step<I>>, i: nat :: Legal(s, steps) && i < |steps| && steps[i].Lookup? ==>
      Answer(s, steps, i) == Uncached(s, steps[i].input)
  }

  lemma SeparateKeysAreTransparent<I(!new), V>(s: Setup<I, V>, steps: seq<Step<I>>, i: nat)
    requires KeysSeparate(s) && s.maxEntries >= 1 && i < |steps| && steps[i].Lookup?
    ensures Answer(s, steps, i) == Uncached(s, steps[i].input)
  {
    if Get(CacheAfter(s, steps[..i]), s.key(steps[i].input), steps[i].now).1.Some? {
      HitsAreFreshSuccesses(s, steps, i);
      var j :| 0 <= j < i && steps[j].Store? && s.key(steps[j].input) == s.key(steps[i].input)
               && Outcome(s.retry(steps[j].input), s.node(steps[j].input)) == Answer(s, steps, i);
    }
  }

  /** Store the output of one input and ask for the other at the same moment. */
  lemma SharedKeyShows<I(!new), V>(s: Setup<I, V>, a: I, b: I)
    requires s.maxEntries >= 1 && (s.ttl(a).Some? ==> s.ttl(a).value >= 0.0)
    requires s.key(a) == s.key(b) && Outcome(s.retry(a), s.node(a)).Value?
    ensures var steps := [Store(a, 0.0), Lookup(b, 0.0)];
            Legal(s, steps) && Answer(s, steps, 1) == Outcome(s.retry(a), s.node(a))
  {
    hide Outcome;
    var steps := [Store(a, 0.0), Lookup(b, 0.0)];
    assert steps[..1] == [Store(a, 0.0)] && [Store(a, 0.0)][..0] == [];
    assert CacheAfter(s, [Store(a, 0.0)]) == Next(s, EmptyCache(), Store(a, 0.0));
  }

  /** The cache changes no answer of any interleaving exactly when the key function separates differing inputs. */
  lemma TransparentIff<I(!new), V>(s: Setup<I, V>)
    requires s.maxEntries >= 1 && forall input: I :: s.ttl(input).Some? ==> s.ttl(input).value >= 0.0
    ensures Transparent(s) <==> KeysSeparate(s)
  {
    if KeysSeparate(s) {
      forall steps: seq<Step<I>>, i: nat | Legal(s, steps) && i < |steps| && steps[i].Lookup?
        ensures Answer(s, steps, i) == Uncached(s, steps[i].input)
      {
        SeparateKeysAreTransparent(s, steps, i);
      }
    }
    if Transparent(s) {
      forall a: I, b: I | s.key(a) == s.key(b) && Outcome(s.retry(a), s.node(a)).Value?
        ensures Uncached(s, b) == Outcome(s.retry(a), s.node(a))
      {
        SharedKeyShows(s, a, b);
        var steps := [Store(a, 0.0), Lookup(b, 0.0)];
        assert steps[1].Lookup? && steps[1].input == b;
      }
    }
  }

  // ----- The default key -----

  /** The default key digests the serialised state and the thread id, and nothing else. */
  function DefaultKey(digest: string -> string, state: string, thread: string): string {
    digest(state + "|" + thread)
  }

  ghost predicate Injective(digest: string -> string) {
    forall x, y :: digest(x) == digest(y) ==> x == y
  }

  predicate BarFree(thread: string) {
    '|' !in thread
  }

  /** Under a digest without collisions, states and bar-free thread ids share a default key only if they agree. */
  lemma DefaultKeyIff(digest: string -> string, s: string, t: string, s': string, t': string)
    requires Injective(digest) && BarFree(t) && BarFree(t')
    ensures DefaultKey(digest, s, t) == DefaultKey(digest, s', t') <==> s == s' && t == t'
  {
    var whole := s + "|" + t;
    if whole == s' + "|" + t' {
      if |s| < |s'| {
        BarInTail(s, t, s', t');
        assert false;
      } else if |s'| < |s| {
        BarInTail(s', t', s, t);
        assert false;
      } else {
        assert s == whole[..|s|] && s' == whole[..|s|];
        assert t == whole[|s| + 1..] && t' == whole[|s| + 1..];
      }
    }
  }

  lemma BarInTail(s: string, t: string, s': string, t': string)
    requires s + "|" + t == s' + "|" + t' && |s| < |s'|
    ensures !BarFree(t)
  {
    var whole := s + "|" + t;
    assert whole == s' + "|" + t';
    assert t[|s'| - |s| - 1] == whole[|s'|] == '|';
  }

  /** A thread id with a bar can be taken for a part of the state. */
  lemma BarsCollide(digest: string -> string)
    ensures DefaultKey(digest, "a|b", "c") == DefaultKey(digest, "a", "b|c")
  {
    assert "a|b" + "|" + "c" == "a" + "|" + "b|c";
  }

  type ThreadId = t: string | BarFree(t)

  /** An execution: the node, the serialised state, the thread id, and the rest of the configuration. */
  datatype Execution<N, C> = Execution(node: N, state: string, thread: ThreadId, rest: C)

  /**
   With the default key the cache is transparent exactly if answers depend on nothing but state and thread:
   neither on which node of the name runs nor on the rest of the configuration.
   */
  lemma DefaultKeyTransparentIff<N(!new), C(!new), V>(s: Setup<Execution<N, C>, V>, digest: string -> string)
    requires Injective(digest) && s.maxEntries >= 1
    requires forall e: Execution<N, C> :: s.ttl(e).Some? ==> s.ttl(e).value >= 0.0
    requires forall e: Execution<N, C> :: s.key(e) == DefaultKey(digest, e.state, e.thread)
    ensures Transparent(s) <==>
            forall a: Execution<N, C>, b: Execution<N, C> ::
              a.state == b.state && a.thread == b.thread && Outcome(s.retry(a), s.node(a)).Value? ==>
                Uncached(s, b) == Outcome(s.retry(a), s.node(a))
  {
    TransparentIff(s);
    hide Outcome, Uncached, Transparent, DefaultKey, Injective;
    forall a: Execution<N, C>, b: Execution<N, C>
      ensures s.key(a) == s.key(b) <==> a.state == b.state && a.thread == b.thread
    {
      DefaultKeyIff(digest, a.state, a.thread, b.state, b.thread);
    }
  }

  // ----- The objects -----

  class NodeCache<V> {
    const maxEntries: nat
    var order: seq<string>
    var entries: map<string, Entry<V>>

    constructor (maxEntries: nat)
      ensures this.maxEntries == maxEntries && View() == EmptyCache()
    {
      this.maxEntries := maxEntries;
      order, entries := [], map[];
    }

    function View(): Cache<V>
      reads this
    {
      Cache(order, entries)
    }

    method Lookup(key: string, now: real) returns (hit: Option<V>)
      modifies this
      ensures (View(), hit) == Get(old(View()), key, now)
    {
      if key !in entries {
        return None;
      }
      var entry := entries[key];
      if entry.expiresAt.Some? && entry.expiresAt.value < now {
        order, entries := Without(order, key), entries - {key};
        return None;
      }
      hit := Some(entry.value);
    }

    method Put(key: string, value: V, ttl: Option<real>, now: real)
      requires maxEntries >= 1
      modifies this
      ensures View() == Set(old(View()), maxEntries, key, value, ttl, now)
    {
      var expiresAt := if ttl.Some? then Some(now + ttl.value) else None;
      if |order| >= maxEntries {
        var oldest := order[0];
        order, entries := Without(order, oldest), entries - {oldest};
      }
      if key !in entries {
        order := order + [key];
      }
      entries := entries[key := Entry(expiresAt, value)];
    }
  }

  /**
   One execution: with caching, the lookup at `now`; on a miss the retry loop, whose value is stored at
   `later` and whose exception goes to the error handler, if there is one.
   */
  method ExecuteWithPolicy<I, V>(s: Setup<I, V>, caching: bool, cache: NodeCache<V>, input: I, now: real, later: real)
    returns (r: Attempt<V>)
    requires cache.maxEntries == s.maxEntries >= 1
    modifies cache
    ensures var (afterGet, hit) := Get(old(cache.View()), s.key(input), now);
            var last := s.node(input)(Settled(s.retry(input), s.node(input), 0));
            if caching && hit.Some? then r == Value(hit.value) && cache.View() == afterGet
            else
              && r == (match last
                       case Value(_) => last
                       case Raises(f) => match s.handler(input)
                                         case Some(handle) => handle(f)
                                         case None => last)
              && cache.View() == if !caching then old(cache.View())
                                 else if last.Value?
                                 then Set(afterGet, s.maxEntries, s.key(input), last.value, s.ttl(input), later)
                                 else afterGet
  {
    if caching {
      var cached := cache.Lookup(s.key(input), now);
      if cached.Some? {
        return Value(cached.value);
      }
    }
    var outcome, _, _ := RunWithRetries(s.retry(input), s.node(input));
    match outcome
    case Value(v) =>
      if caching {
        cache.Put(s.key(input), v, s.ttl(input), later);
      }
      r := outcome;
    case Raises(f) =>
      r := if s.handler(input).Some? then s.handler(input).value(f) else Raises(f);
  }
}
