/** The Redis store the services use: string keys holding string values, each written with an
    expiry (`SET key value EX seconds`). Time is the caller's clock, in whole seconds; an entry
    whose expiry has passed reads as absent. */
module KeyValue {
  import opened Common

  datatype Entry = Entry(value: string, expiresAt: int)

  /** `TTL` of an absent or expired key. */
  const NoKey: int := -2

  /** `GET`: the value of a key that has not expired. */
  function Lookup(entries: map<string, Entry>, key: string, now: int): (r: Option<string>)
    ensures r.Some? <==> key in entries && entries[key].expiresAt > now
    ensures r.Some? ==> r.value == entries[key].value
  {
    if key in entries && entries[key].expiresAt > now then Some(entries[key].value) else None
  }

  /** `TTL`: the seconds left before a key expires, or -2 when it is absent. */
  function TimeToLive(entries: map<string, Entry>, key: string, now: int): (r: int)
    ensures r == NoKey <==> Lookup(entries, key, now).None?
    ensures r != NoKey ==> r > 0 && r == entries[key].expiresAt - now
  {
    if Lookup(entries, key, now).Some? then entries[key].expiresAt - now else NoKey
  }

  /** A key written with `EX seconds` reads back its value and has `seconds` left. */
  lemma WrittenKeyReadsBack(entries: map<string, Entry>, key: string, value: string, seconds: int, now: int, later: int)
    requires seconds > 0 && now <= later
    ensures var after := entries[key := Entry(value, now + seconds)];
      && (Lookup(after, key, later) == Some(value) <==> later < now + seconds)
      && TimeToLive(after, key, now) == seconds
  {
  }

  class Redis {
    var entries: map<string, Entry>

    constructor ()
      ensures entries == map[]
    {
      entries := map[];
    }

    /** `SET key value EX seconds`. */
    method Set(key: string, value: string, seconds: int, now: int)
      requires seconds > 0
      modifies this
      ensures entries == old(entries)[key := Entry(value, now + seconds)]
      ensures Lookup(entries, key, now) == Some(value) && TimeToLive(entries, key, now) == seconds
    {
      entries := entries[key := Entry(value, now + seconds)];
    }

    /** `DEL` (and `UNLINK`): removes the key, whether or not it is present. */
    method Del(key: string)
      modifies this
      ensures entries == old(entries) - {key}
      ensures forall now :: Lookup(entries, key, now) == None
    {
      entries := entries - {key};
    }
  }
}
