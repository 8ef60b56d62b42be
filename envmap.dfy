/**
 The value held by the package variable `EnvVariables`: a Go
 `map[string]string`, which is either nil or a made map. Reading a nil map
 yields the zero value `""`; writing to one is a run-time panic.
 */
module EnvMap {

  datatype GoMap = Nil | Made(entries: map<string, string>) {

    /** The entries a reader sees: none for a nil map. */
    function Entries(): map<string, string>
    {
      if Nil? then map[] else entries
    }

    /** Indexing the map: the stored value, or `""` for an absent key or a nil map. */
    function Get(key: string): (value: string)
      ensures key in Entries() ==> value == Entries()[key]
      ensures key !in Entries() ==> value == ""
    {
      if key in Entries() then Entries()[key] else ""
    }

    /** `m[key] = value` on a made map: that key now holds `value`, every other key is as before. */
    function Put(key: string, value: string): (r: GoMap)
      requires Made?
      ensures r.Made? && r.entries.Keys == entries.Keys + {key}
      ensures r.Get(key) == value
      ensures forall k :: k != key ==> r.Get(k) == Get(k)
    {
      Made(entries[key := value])
    }
  }

  /** initEnvMap: a made, empty map. */
  function InitEnvMap(): (m: GoMap)
    ensures m.Made? && m.Entries() == map[]
    ensures forall k :: m.Get(k) == ""
  {
    Made(map[])
  }

  /** Writing the same pair twice is the same as writing it once. */
  lemma PutIdempotent(m: GoMap, key: string, value: string)
    requires m.Made?
    ensures m.Put(key, value).Put(key, value) == m.Put(key, value)
  {
  }

  /** Of two writes to one key, the later one wins. */
  lemma PutLastWins(m: GoMap, key: string, first: string, second: string)
    requires m.Made?
    ensures m.Put(key, first).Put(key, second) == m.Put(key, second)
  {
  }

}
