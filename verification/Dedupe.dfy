/** The bounded dedupe set of the analytics queue: cleared when full, then the key is inserted. */
module Dedupe {
  import opened Wrappers

  type Key = (string, string)

  const MAX_KEYS := 4096

  function Cleared(emitted: set<Key>): set<Key> { if |emitted| >= MAX_KEYS then {} else emitted }

  /** A key is accepted when the set, cleared first if full, did not hold it. */
  predicate Accepts(emitted: set<Key>, key: Key) { key !in Cleared(emitted) }

  function EmittedAfter(keys: seq<Key>): set<Key>
  {
    if keys == [] then {} else Cleared(EmittedAfter(keys[..|keys| - 1])) + {keys[|keys| - 1]}
  }

  function Acceptances(keys: seq<Key>): nat
  {
    if keys == [] then 0
    else
      Acceptances(keys[..|keys| - 1])
      + if Accepts(EmittedAfter(keys[..|keys| - 1]), keys[|keys| - 1]) then 1 else 0
  }

  function AcceptancesOf(keys: seq<Key>, key: Key): nat
  {
    if keys == [] then 0
    else
      AcceptancesOf(keys[..|keys| - 1], key)
      + if keys[|keys| - 1] == key && Accepts(EmittedAfter(keys[..|keys| - 1]), key) then 1 else 0
  }

  function Clears(keys: seq<Key>): nat
  {
    if keys == [] then 0
    else Clears(keys[..|keys| - 1]) + if |EmittedAfter(keys[..|keys| - 1])| >= MAX_KEYS then 1 else 0
  }

  /** One of the queue's locked key sets. */
  class EmittedKeys {
    var emitted: set<Key>

    constructor ()
      ensures emitted == {}
    {
      emitted := {};
    }

    /** Clears the set if it is full, then inserts; the result is whether the key was new. */
    method Insert(key: Key) returns (accepted: bool)
      modifies this
      ensures accepted == Accepts(old(emitted), key)
      ensures emitted == Cleared(old(emitted)) + {key}
    {
      if |emitted| >= MAX_KEYS { emitted := {}; }
      accepted := key !in emitted;
      emitted := emitted + {key};
    }
  }

  /** The queue keeps the keys of apps and of plugins apart. */
  class AnalyticsEventsQueue {
    const apps: EmittedKeys
    const plugins: EmittedKeys

    constructor ()
      ensures apps != plugins && apps.emitted == {} && plugins.emitted == {}
    {
      apps := new EmittedKeys();
      plugins := new EmittedKeys();
    }

    method ShouldEnqueueAppUsed(turn: string, connector: Option<string>) returns (accepted: bool)
      requires apps != plugins
      modifies apps
      ensures connector.None? ==> accepted && apps.emitted == old(apps.emitted)
      ensures connector.Some? ==> accepted == Accepts(old(apps.emitted), (turn, connector.value))
      ensures connector.Some? ==> apps.emitted == Cleared(old(apps.emitted)) + {(turn, connector.value)}
      ensures plugins.emitted == old(plugins.emitted)
    {
      if connector.None? { return true; }
      accepted := apps.Insert((turn, connector.value));
    }

    method ShouldEnqueuePluginUsed(turn: string, plugin: string) returns (accepted: bool)
      requires apps != plugins
      modifies plugins
      ensures accepted == Accepts(old(plugins.emitted), (turn, plugin))
      ensures plugins.emitted == Cleared(old(plugins.emitted)) + {(turn, plugin)}
      ensures apps.emitted == old(apps.emitted)
    {
      accepted := plugins.Insert((turn, plugin));
    }
  }

  /** Every acceptance is in the set or was swept out with a full one. */
  lemma {:induction false} AcceptancesAccounted(keys: seq<Key>)
    ensures Acceptances(keys) == MAX_KEYS * Clears(keys) + |EmittedAfter(keys)|
    ensures |EmittedAfter(keys)| <= MAX_KEYS
  {
    if keys != [] {
      var before, key := keys[..|keys| - 1], keys[|keys| - 1];
      AcceptancesAccounted(before);
      var cleared := Cleared(EmittedAfter(before));
      if key in cleared { assert cleared + {key} == cleared; }
    }
  }

  lemma {:induction false} OncePerEpoch(keys: seq<Key>, key: Key)
    ensures AcceptancesOf(keys, key) <= Clears(keys) + if key in EmittedAfter(keys) then 1 else 0
  {
    if keys != [] {
      OncePerEpoch(keys[..|keys| - 1], key);
      AcceptancesAccounted(keys[..|keys| - 1]);
    }
  }

  /** The set never exceeds its bound, and after `a` acceptances in all, any one key has been accepted
      at most once plus once per full set. */
  lemma {:induction false} DedupeBound(keys: seq<Key>, key: Key)
    ensures |EmittedAfter(keys)| <= MAX_KEYS
    ensures AcceptancesOf(keys, key) <= 1 + Acceptances(keys) / MAX_KEYS
  {
    AcceptancesAccounted(keys);
    OncePerEpoch(keys, key);
    assert Acceptances(keys) / MAX_KEYS >= Clears(keys);
  }

  lemma {:induction false} EmittedWereSeen(keys: seq<Key>)
    ensures forall k | k in EmittedAfter(keys) :: k in keys
  {
    if keys != [] {
      EmittedWereSeen(keys[..|keys| - 1]);
    }
  }

  /** No event is lost to the dedupe: a key never offered before is always accepted. */
  lemma {:induction false} UnseenAccepted(keys: seq<Key>, key: Key)
    requires key !in keys
    ensures Accepts(EmittedAfter(keys), key)
  {
    EmittedWereSeen(keys);
  }
}
