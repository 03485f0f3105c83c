/**
 * `DefaultItem#fetch_or_default_item`: look a key up in a configuration
 * map, falling back to the entry stored under `'default'`.  An entry that
 * holds nil counts as missing for both steps; when neither step finds a
 * non-nil entry the final `fetch(key)` raises for an absent key and
 * yields nil for a key that is present with nil.
 */
module DefaultItem {
  import opened RubyValues

  const DefaultKey: Value := Str("default")

  /** The map holds a non-nil entry for the key. */
  predicate HasItem<V>(m: map<Value, Option<V>>, key: Value) {
    key in m && m[key].Some?
  }

  function FetchOrDefaultItem<V>(m: map<Value, Option<V>>, key: Value): (r: Result<Option<V>>)
    // the key's own non-nil entry wins
    ensures HasItem(m, key) ==> r == Ok(m[key])
    // otherwise a non-nil 'default' entry, even over a key mapped to nil
    ensures !HasItem(m, key) && HasItem(m, DefaultKey) ==> r == Ok(m[DefaultKey])
    // otherwise the plain fetch: nil for a key present with nil ...
    ensures !HasItem(m, key) && !HasItem(m, DefaultKey) && key in m ==> r == Ok(None)
    // ... and KeyError for an absent key, the only failure
    ensures r.Err? <==> key !in m && !HasItem(m, DefaultKey)
    ensures r.Err? ==> r.error == KeyError(key)
    // a non-nil result is an entry of the map
    ensures r.Ok? && r.value.Some? ==>
      (HasItem(m, key) && r.value == m[key]) || (HasItem(m, DefaultKey) && r.value == m[DefaultKey])
  {
    if HasItem(m, key) then Ok(m[key])
    else if HasItem(m, DefaultKey) then Ok(m[DefaultKey])
    else if key in m then Ok(m[key])
    else Err(KeyError(key))
  }

  /**
   * Adding or replacing the `'default'` entry never changes the result for
   * a key that has its own non-nil entry.
   */
  lemma DefaultOnlyFillsGaps<V>(m: map<Value, Option<V>>, key: Value, d: Option<V>)
    requires HasItem(m, key) && key != DefaultKey
    ensures FetchOrDefaultItem(m[DefaultKey := d], key) == FetchOrDefaultItem(m, key)
  {
    assert HasItem(m[DefaultKey := d], key);
  }

  /** With a non-nil `'default'` entry the lookup never fails. */
  lemma DefaultMakesTotal<V>(m: map<Value, Option<V>>, key: Value)
    requires HasItem(m, DefaultKey)
    ensures FetchOrDefaultItem(m, key).Ok? && FetchOrDefaultItem(m, key).value.Some?
  {
  }
}
