/**
  The per-user language preference, kept in `users.json` as a JSON object from
  `str(user_id)` to a language tag. Reading and writing the file is not
  modelled: the object's decoded contents are a field of the store, and an
  absent file is `None`.
 */
module Preferences {

  import opened Wrappers
  import Decimal

  /** The tag a user has until they choose one. */
  const DefaultLang: string := "uz"

  /** The key under which a user's tag is stored: Python's `str(user_id)`. */
  function UserKey(userId: int): string {
    Decimal.IntToString(userId)
  }

  /** Different users never share a key, so a write for one never touches another. */
  lemma UserKeyInjective(a: int, b: int)
    requires a != b
    ensures UserKey(a) != UserKey(b)
  {
    Decimal.IntToStringInjective(a, b);
  }

  class PreferenceStore {

    /** The decoded `users.json`, or `None` while the file does not exist. */
    var document: Option<map<string, string>>

    constructor (document: Option<map<string, string>>)
      ensures this.document == document
    {
      this.document := document;
    }

    /** The stored map; a missing file reads as an empty one. */
    function Users(): map<string, string>
      reads this
    {
      if document.Some? then document.value else map[]
    }

    /** `get_user_lang`: the stored tag for this user, or `"uz"` when the file or the key is missing. */
    function GetUserLang(userId: int): (lang: string)
      reads this
      ensures document.None? ==> lang == DefaultLang
      ensures document.Some? && UserKey(userId) !in document.value ==> lang == DefaultLang
      ensures document.Some? && UserKey(userId) in document.value ==> lang == document.value[UserKey(userId)]
    {
      var users := Users();
      var key := UserKey(userId);
      if key in users then users[key] else DefaultLang
    }

    /**
      `set_user_lang`: read the whole map (empty if the file is missing), set this
      user's entry, write the whole map back. Afterwards the file exists, this
      user reads back the new tag and every other key keeps its value.
     */
    method SetUserLang(userId: int, langCode: string)
      modifies this
      ensures document == Some(old(Users())[UserKey(userId) := langCode])
      ensures GetUserLang(userId) == langCode
      ensures forall other :: other != userId ==> GetUserLang(other) == old(GetUserLang(other))
    {
      var users := if document.Some? then document.value else map[];
      users := users[UserKey(userId) := langCode];
      document := Some(users);
      forall other | other != userId
        ensures GetUserLang(other) == old(GetUserLang(other))
      {
        UserKeyInjective(userId, other);
      }
    }
  }
}
