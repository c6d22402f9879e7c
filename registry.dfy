/**
 * The in-memory pending-authorization registry of server.js: a map from the opaque
 * state token handed out by /auth/start to the metadata recorded when it was issued.
 * Entries are inserted by /auth/start, consumed (read then deleted) by the callback,
 * deleted by the periodic sweep once older than ten minutes, and counted by /health.
 */
module Registry {
  import opened Wrappers

  /** What /auth/start records under a state: issue time in ms, client IP, user agent (if sent). */
  datatype Entry = Entry(timestamp: int, ipAddress: string, userAgent: Option<string>)

  /** Age in milliseconds beyond which the sweep deletes an entry (ten minutes). */
  const ExpiredTime: int := 10 * 60 * 1000

  /** The sweep's test: strictly older than ExpiredTime at time `now`. */
  predicate Expired(e: Entry, now: int)
  {
    now - e.timestamp > ExpiredTime
  }

  /** The registry a complete sweep at time `now` leaves behind. */
  function Swept(m: map<string, Entry>, now: int): map<string, Entry>
  {
    map k | k in m && !Expired(m[k], now) :: m[k]
  }

  /** A sweep that has so far visited every key except those in `unvisited`. */
  ghost function PartlySwept(m: map<string, Entry>, now: int, unvisited: set<string>): map<string, Entry>
  {
    map k | k in m && (k in unvisited || !Expired(m[k], now)) :: m[k]
  }

  class PendingAuths {
    var entries: map<string, Entry>

    /** The registry starts empty when the process starts. */
    constructor ()
      ensures entries == map[]
    {
      entries := map[];
    }

    /**
     * /auth/start: records a new entry under `state`, issued at `now`, and hands the
     * state back to the caller. An entry already under that key is overwritten;
     * every other key keeps its entry.
     */
    method Start(state: string, now: int, ipAddress: string, userAgent: Option<string>) returns (issued: string)
      modifies this
      ensures issued == state
      ensures entries.Keys == old(entries).Keys + {state}
      ensures entries[state] == Entry(now, ipAddress, userAgent)
      ensures forall k :: k in old(entries) && k != state ==> entries[k] == old(entries)[k]
    {
      entries := entries[state := Entry(now, ipAddress, userAgent)];
      issued := state;
    }

    /**
     * The callback's get-then-delete of its state: returns the entry if there is one
     * and removes the key; every other key keeps its entry.
     */
    method Consume(state: string) returns (found: Option<Entry>)
      modifies this
      ensures found == if state in old(entries) then Some(old(entries)[state]) else None
      ensures entries.Keys == old(entries).Keys - {state}
      ensures forall k :: k in entries ==> entries[k] == old(entries)[k]
    {
      if state in entries {
        found := Some(entries[state]);
        entries := entries - {state};
      } else {
        found := None;
      }
    }

    /**
     * The body of the five-minute timer: visits every entry and deletes the ones
     * older than ExpiredTime at `now`.
     */
    method Sweep(now: int)
      modifies this
      ensures entries == Swept(old(entries), now)
    {
      ghost var before := entries;
      var unvisited := entries.Keys;
      while unvisited != {}
        invariant unvisited <= before.Keys
        invariant entries == PartlySwept(before, now, unvisited)
        decreases unvisited
      {
        var state :| state in unvisited;
        if now - entries[state].timestamp > ExpiredTime {
          entries := entries - {state};
        }
        unvisited := unvisited - {state};
      }
    }

    /** /health's pending_auths: the number of live entries. */
    method Size() returns (n: nat)
      ensures n == |entries|
    {
      n := |entries|;
    }
  }

  /** A key survives the sweep exactly when its entry is at most ExpiredTime old, and keeps its entry. */
  lemma SweptKeeps(m: map<string, Entry>, now: int, k: string)
    ensures k in Swept(m, now) <==> k in m && now - m[k].timestamp <= ExpiredTime
    ensures k in Swept(m, now) ==> Swept(m, now)[k] == m[k]
  {
  }

  /** An entry exactly ten minutes old survives; one a millisecond older does not. */
  lemma SweepBoundary(m: map<string, Entry>, now: int, k: string)
    requires k in m
    ensures m[k].timestamp == now - 600000 ==> k in Swept(m, now)
    ensures m[k].timestamp == now - 600001 ==> k !in Swept(m, now)
  {
  }

  /** A second sweep at the same time changes nothing. */
  lemma SweepIdempotent(m: map<string, Entry>, now: int)
    ensures Swept(Swept(m, now), now) == Swept(m, now)
  {
  }

  /** Sweeping at `t1` and then at a later `t2` leaves what one sweep at `t2` leaves. */
  lemma SweepLater(m: map<string, Entry>, t1: int, t2: int)
    requires t1 <= t2
    ensures Swept(Swept(m, t1), t2) == Swept(m, t2)
  {
  }

  /** A sweep never makes the registry larger. */
  lemma SweepShrinks(m: map<string, Entry>, now: int)
    ensures |Swept(m, now)| <= |m|
  {
    SubsetSize(Swept(m, now).Keys, m.Keys);
  }

  lemma {:induction false} SubsetSize(a: set<string>, b: set<string>)
    requires a <= b
    ensures |a| <= |b|
    decreases b
  {
    if a != {} {
      var x :| x in a;
      SubsetSize(a - {x}, b - {x});
    }
  }

  /**
   * A state issued once is handed out by the first consume and refused by the
   * second: the anti-replay guarantee of the registry.
   */
  method ConsumeOnce(state: string, now: int, ipAddress: string) returns (first: Option<Entry>, second: Option<Entry>, left: nat)
    ensures first == Some(Entry(now, ipAddress, None))
    ensures second == None
    ensures left == 0
  {
    var registry := new PendingAuths();
    var issued := registry.Start(state, now, ipAddress, None);
    first := registry.Consume(issued);
    second := registry.Consume(issued);
    left := registry.Size();
  }

  /**
   * A state issued at `issuedAt` and not consumed is still consumable after a sweep
   * at `sweptAt` exactly when it is at most ten minutes old then.
   */
  method ExpiryThenConsume(state: string, issuedAt: int, sweptAt: int) returns (found: Option<Entry>)
    ensures found.Some? <==> sweptAt - issuedAt <= ExpiredTime
    ensures found.Some? ==> found.value.timestamp == issuedAt
  {
    var registry := new PendingAuths();
    var issued := registry.Start(state, issuedAt, "", None);
    registry.Sweep(sweptAt);
    found := registry.Consume(issued);
  }
}
