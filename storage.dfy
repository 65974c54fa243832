/** The browser's `localStorage`, as a value: the stored items, and whether
    reading and writing currently succeed (storage disabled, quota full). */
module Storage {
  import opened Wrappers

  datatype Store = Store(items: map<string, string>, readable: bool, writable: bool) {

    /** `getItem` wrapped in try/catch: a read that throws yields nothing. */
    function Get(key: string): (r: Option<string>)
      ensures r.Some? <==> readable && key in items
      ensures r.Some? ==> r.value == items[key]
    {
      if readable && key in items then Some(items[key]) else None
    }

    /** `setItem` wrapped in try/catch: a write that throws changes nothing. */
    function Set(key: string, value: string): (r: Store)
      ensures r.readable == readable && r.writable == writable
      ensures writable ==> r.items.Keys == items.Keys + {key} && r.items[key] == value
      ensures !writable ==> r == this
    {
      if writable then this.(items := items[key := value]) else this
    }
  }

  /** JavaScript truthiness of a string that may be `null`: present and non-empty. */
  predicate Truthy(s: Option<string>) {
    s.Some? && s.value != ""
  }

  /** Reading a key back after writing it: the written value when both
      directions work, the old answer for every other key. */
  lemma GetAfterSet(s: Store, key: string, value: string, other: string)
    ensures s.Set(key, value).Get(other) ==
              if other == key && s.readable && s.writable then Some(value) else s.Get(other)
  {
  }
}
