/** The choice between the hosted backend and the in-memory fallback (src/lib/supabase.ts).
    The two environment variables are `None` when undefined. */
module Backend {
  import opened Text
  import opened Wrappers

  const PlaceholderMarker: string := "placeholder"
  const PlaceholderKey: string := "placeholder-key"

  /** JavaScript truthiness of an optional string: undefined and "" are falsy. */
  predicate Present(v: Option<string>) {
    v.Some? && v.value != ""
  }

  /** isMockSupabase: the fallback store is used when the URL is missing, empty or mentions
      "placeholder", or when the key is missing, empty or exactly "placeholder-key". */
  function IsMockSupabase(url: Option<string>, key: Option<string>): (mock: bool)
    ensures mock <==>
      url == None || url.value == "" || (exists i :: OccursAt(url.value, PlaceholderMarker, i))
      || key == None || key.value == "" || key.value == PlaceholderKey
  {
    !Present(url) || Includes(url.value, PlaceholderMarker) || !Present(key) || key.value == PlaceholderKey
  }

  lemma MockWhenUrlMissing(url: Option<string>, key: Option<string>)
    requires url == None || url == Some("")
    ensures IsMockSupabase(url, key)
  {
  }

  lemma MockWhenUrlHasPlaceholder(url: string, key: Option<string>, i: nat)
    requires OccursAt(url, PlaceholderMarker, i)
    ensures IsMockSupabase(Some(url), key)
  {
  }

  lemma MockWhenKeyMissing(url: Option<string>, key: Option<string>)
    requires key == None || key == Some("")
    ensures IsMockSupabase(url, key)
  {
  }

  /** Only the exact placeholder key switches to the fallback: a key that merely contains
      "placeholder" does not, as long as the URL is a real one. */
  lemma KeyContainingPlaceholderIsNotEnough(url: string, key: string)
    requires url != "" && !Includes(url, PlaceholderMarker)
    requires key != "" && key != PlaceholderKey && Includes(key, PlaceholderMarker)
    ensures !IsMockSupabase(Some(url), Some(key))
  {
  }

  /** One such pair: a hosted project URL with the key "my-placeholder". */
  lemma KeyContainingPlaceholderExample()
    ensures Includes("my-placeholder", PlaceholderMarker)
    ensures !IsMockSupabase(Some("https://abc.supabase.co"), Some("my-placeholder"))
  {
    assert OccursAt("my-placeholder", PlaceholderMarker, 3);
    AbsentCharExcludes("https://abc.supabase.co", PlaceholderMarker, 1);
  }

  /** The hosted backend is used exactly when none of the four mock conditions holds. */
  lemma RealBackendIff(url: Option<string>, key: Option<string>)
    ensures !IsMockSupabase(url, key) <==>
      (url.Some? && url.value != "" && (forall i :: !OccursAt(url.value, PlaceholderMarker, i))
       && key.Some? && key.value != "" && key.value != PlaceholderKey)
  {
  }
}
