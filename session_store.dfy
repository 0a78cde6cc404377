/**
 * The browser's origin-scoped key/value storage (`localStorage`), which
 * the authentication hook reads and writes under three fixed keys.
 */
module SessionStore {
  import opened Wrappers

  const AccessTokenKey := "accessToken"
  const RefreshTokenKey := "refreshToken"
  const ExpiresAtKey := "expiresAt"

  /** `getItem`: `None` plays the part of the `null` returned for a missing key. */
  function Get(entries: map<string, string>, key: string): Option<string> {
    if key in entries then Some(entries[key]) else None
  }

  class Store {
    var entries: map<string, string>

    constructor (initial: map<string, string>)
      ensures entries == initial
    {
      entries := initial;
    }

    function GetItem(key: string): Option<string>
      reads this
    {
      Get(entries, key)
    }

    method SetItem(key: string, value: string)
      modifies this
      ensures entries == old(entries)[key := value]
      ensures GetItem(key) == Some(value)
    {
      entries := entries[key := value];
    }

    method RemoveItem(key: string)
      modifies this
      ensures entries == old(entries) - {key}
      ensures GetItem(key) == None
    {
      entries := entries - {key};
    }
  }
}
