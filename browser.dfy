/**
  * The browser objects the scripts read and write: Web Storage
  * (`localStorage`), the fragment of the window's location (`location.hash`)
  * and DOM elements with their `data-role` and `hidden` attributes.
  */
module Browser {
  import opened Wrappers

  /** `window.localStorage`: a string-to-string map that outlives the page. */
  class LocalStorage {
    var items: map<string, string>

    constructor (initial: map<string, string>)
      ensures items == initial
    {
      items := initial;
    }

    /** `localStorage.getItem(key)`: the stored string, or `None` (JavaScript `null`) for an absent key. */
    function GetItem(key: string): (v: Option<string>)
      reads this
      ensures v.Some? <==> key in items
      ensures v.Some? ==> v.value == items[key]
    {
      if key in items then Some(items[key]) else None
    }

    /** `localStorage.setItem(key, value)`: stores `value` under `key`, nothing else changes. */
    method SetItem(key: string, value: string)
      modifies this
      ensures items == old(items)[key := value]
    {
      items := items[key := value];
    }

    /** `localStorage.removeItem(key)`: forgets `key`, nothing else changes. */
    method RemoveItem(key: string)
      modifies this
      ensures items == old(items) - {key}
    {
      items := items - {key};
    }
  }

  /** `window.location`, reduced to its fragment `location.hash` (`""` or a string starting with `#`). */
  class Location {
    var hash: string

    constructor (hash: string)
      ensures this.hash == hash
    {
      this.hash := hash;
    }
  }

  /** A DOM element: its `data-role` attribute (`None` when it has none) and its `hidden` attribute. */
  class Element {
    const dataRole: Option<string>
    var hidden: bool

    constructor (dataRole: Option<string>, hidden: bool)
      ensures this.dataRole == dataRole && this.hidden == hidden
    {
      this.dataRole := dataRole;
      this.hidden := hidden;
    }
  }
}
