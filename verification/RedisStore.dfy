/** The part of Redis that the counters use: plain values and hashes. */
module RedisStore {

  class Redis {
    var values: map<string, string>
    var hashes: map<(string, string), string>

    constructor ()
      ensures values == map[] && hashes == map[]
    {
      values, hashes := map[], map[];
    }

    // A missing entry reads as the empty text.
    function GetField(key: string, field: string): (value: string)
      reads this
      ensures (key, field) in hashes ==> value == hashes[(key, field)]
      ensures (key, field) !in hashes ==> value == ""
    {
      if (key, field) in hashes then hashes[(key, field)] else ""
    }

    method SetField(key: string, field: string, value: string)
      modifies this
      ensures hashes == old(hashes)[(key, field) := value] && values == old(values)
    {
      hashes := hashes[(key, field) := value];
    }

    function GetValue(key: string): (value: string)
      reads this
      ensures key in values ==> value == values[key]
      ensures key !in values ==> value == ""
    {
      if key in values then values[key] else ""
    }

    method SetValue(key: string, value: string)
      modifies this
      ensures values == old(values)[key := value] && hashes == old(hashes)
    {
      values := values[key := value];
    }
  }
}
