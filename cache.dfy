/** The Redis cache layer as the routes use it: `get`, `setEx` with a
    time-to-live in seconds, and `del`. Every command may fail (the client
    is disconnected, the server is down); each method takes that outcome as
    a parameter, so the callers' contracts hold whichever way it goes. Time
    is an abstract one-second tick. */
module CacheLayer {
  import opened Models

  /** A cached query result, as `JSON.stringify` wrote it and `JSON.parse`
      reads it back. */
  datatype Payload = PostList(posts: seq<Post>) | EventList(events: seq<Event>)

  /** A stored value and the seconds it has left to live. */
  datatype Entry = Entry(payload: Payload, ttl: nat)

  /** What `get` gives the caller: a value, `null`, or a thrown error. */
  datatype Lookup = Hit(payload: Payload) | Miss | Failed

  /** The entries after a `del` that succeeded or failed. */
  function AfterDel(entries: map<string, Entry>, key: string, fails: bool): (r: map<string, Entry>)
    ensures fails ==> r == entries
    ensures !fails ==> key !in r && forall k :: k != key ==> (k in r <==> k in entries)
    ensures forall k :: k in r ==> k in entries && r[k] == entries[k]
  {
    if fails then entries else entries - {key}
  }

  /** One second passes: every entry's time-to-live drops by one and the
      entries that reach zero expire. */
  function Tick(entries: map<string, Entry>): (r: map<string, Entry>)
    ensures forall k :: k in r <==> k in entries && entries[k].ttl > 1
    ensures forall k :: k in r ==> r[k] == entries[k].(ttl := entries[k].ttl - 1)
  {
    map k | k in entries && entries[k].ttl > 1 :: entries[k].(ttl := entries[k].ttl - 1)
  }

  /** `n` seconds pass. */
  function Elapse(entries: map<string, Entry>, n: nat): map<string, Entry> {
    if n == 0 then entries else Elapse(Tick(entries), n - 1)
  }

  /** An entry set with time-to-live `t` is still there, unchanged, for the
      first `t - 1` seconds and gone after `t`. */
  lemma {:induction false} ExpiresAfterTtl(entries: map<string, Entry>, n: nat, k: string)
    requires k in entries ==> entries[k].ttl > 0
    ensures k in Elapse(entries, n) <==> k in entries && entries[k].ttl > n
    ensures k in Elapse(entries, n) ==>
      Elapse(entries, n)[k].payload == entries[k].payload && Elapse(entries, n)[k].ttl == entries[k].ttl - n
  {
    if n > 0 {
      ExpiresAfterTtl(Tick(entries), n - 1, k);
    }
  }

  class Cache {
    var entries: map<string, Entry>

    constructor ()
      ensures entries == map[]
    {
      entries := map[];
    }

    method Get(key: string, fails: bool) returns (r: Lookup)
      ensures fails ==> r == Failed
      ensures !fails && key in entries ==> r == Hit(entries[key].payload)
      ensures !fails && key !in entries ==> r == Miss
    {
      if fails {
        r := Failed;
      } else if key in entries {
        r := Hit(entries[key].payload);
      } else {
        r := Miss;
      }
    }

    /** `setEx(key, ttl, value)`; Redis refuses a zero expiry. */
    method SetEx(key: string, ttl: nat, payload: Payload, fails: bool)
      modifies this
      ensures entries == if fails || ttl == 0 then old(entries)
                         else old(entries)[key := Entry(payload, ttl)]
    {
      if !fails && ttl > 0 {
        entries := entries[key := Entry(payload, ttl)];
      }
    }

    method Del(key: string, fails: bool)
      modifies this
      ensures entries == AfterDel(old(entries), key, fails)
    {
      entries := AfterDel(entries, key, fails);
    }

    method Advance()
      modifies this
      ensures entries == Tick(old(entries))
    {
      entries := Tick(entries);
    }
  }
}
