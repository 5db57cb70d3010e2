/**
 * The browser's `localStorage`: one process-wide string-to-string store that
 * outlives every component reading it.
 */
module Storage {
  import opened Wrappers

  class LocalStorage {
    /** The stored items; a key absent here is one `getItem` reports as `null`. */
    var items: map<string, string>

    constructor (initial: map<string, string>)
      ensures items == initial
    {
      items := initial;
    }

    /** `localStorage.getItem(key)`. */
    function GetItem(key: string): (r: Option<string>)
      reads this
      ensures r.None? <==> key !in items
      ensures r.Some? ==> items[key] == r.value
    {
      if key in items then Some(items[key]) else None
    }

    /** `localStorage.setItem(key, value)`: binds `key`, every other key keeps its item. */
    method SetItem(key: string, value: string)
      modifies this
      ensures items == old(items)[key := value]
      ensures GetItem(key) == Some(value)
      ensures forall k :: k != key ==> GetItem(k) == old(GetItem(k))
    {
      items := items[key := value];
    }
  }
}
