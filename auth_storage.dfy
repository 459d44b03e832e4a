/** The browser-side session helpers (frontend/src/utils/auth.js) over
    `localStorage`, a map from keys to strings. JSON is a parameter:
    `encode` is `JSON.stringify`, and `parse` is `JSON.parse` giving `None`
    where it throws or where the text is `null`. */
module AuthStorage {
  import opened Wrappers

  const TokenKey: string := "cc_token"
  const UserKey: string := "cc_user"

  /** The signed-in user as the client keeps it: the JSON the server sent,
      in which any field may be missing. The login and register answers
      carry `id`; the user `PUT /users/me` answers with is the document
      itself, which has `_id` and no `id`. `skills` is `None` when it is
      missing or not an array. */
  datatype StoredUser = StoredUser(id: Option<string>, name: Option<string>, email: Option<string>,
                                   college: Option<string>, year: Option<string>,
                                   skills: Option<seq<string>>, avatarUrl: Option<string>)

  /** `window.localStorage`. */
  class LocalStorage {
    var items: map<string, string>

    constructor ()
      ensures items == map[]
    {
      items := map[];
    }

    /** `getItem(key)`: the stored string, or `null`. */
    function GetItem(key: string): (v: Option<string>)
      reads this
      ensures v.Some? <==> key in items
      ensures v.Some? ==> v.value == items[key]
    {
      if key in items then Some(items[key]) else None
    }

    method SetItem(key: string, value: string)
      modifies this
      ensures items == old(items)[key := value]
    {
      items := items[key := value];
    }

    method RemoveItem(key: string)
      modifies this
      ensures items == old(items) - {key}
    {
      items := items - {key};
    }
  }

  /** `setItem` turns its value into a string, so a `null` token is stored
      as the text `null`. */
  function TokenText(token: Option<string>): string {
    token.GetOr("null")
  }

  /** The storage after `saveAuth(token, user)`. */
  function Saved(items: map<string, string>, token: Option<string>, userText: string): map<string, string> {
    items[TokenKey := TokenText(token)][UserKey := userText]
  }

  /** The storage after `clearAuth()`. */
  function Cleared(items: map<string, string>): map<string, string> {
    items - {TokenKey, UserKey}
  }

  method SaveAuth(store: LocalStorage, token: Option<string>, user: StoredUser, encode: StoredUser -> string)
    modifies store
    ensures store.items == Saved(old(store.items), token, encode(user))
  {
    store.SetItem(TokenKey, TokenText(token));
    store.SetItem(UserKey, encode(user));
  }

  method ClearAuth(store: LocalStorage)
    modifies store
    ensures store.items == Cleared(old(store.items))
  {
    store.RemoveItem(TokenKey);
    store.RemoveItem(UserKey);
    assert store.items == old(store.items) - {TokenKey} - {UserKey};
  }

  /** `getUser()`: `JSON.parse(getItem("cc_user"))`, and `JSON.parse(null)`
      is `null`. */
  function GetUser(store: LocalStorage, parse: string -> Option<StoredUser>): (u: Option<StoredUser>)
    reads store
    ensures UserKey !in store.items ==> u.None?
    ensures u.Some? ==> parse(store.items[UserKey]) == u
    ensures UserKey in store.items ==> u == parse(store.items[UserKey])
  {
    match store.GetItem(UserKey)
    case None => None
    case Some(text) => parse(text)
  }

  /** The token the request helpers read. */
  function Token(store: LocalStorage): (t: Option<string>)
    reads store
    ensures t.Some? <==> TokenKey in store.items
    ensures t.Some? ==> t.value == store.items[TokenKey]
  {
    store.GetItem(TokenKey)
  }

  /** After `saveAuth(t, u)`, `getUser()` gives `u` back when JSON
      round-trips it, and the token is the one saved. */
  lemma SavedUserIsRead(store: LocalStorage, before: map<string, string>, token: string, user: StoredUser,
                        encode: StoredUser -> string, parse: string -> Option<StoredUser>)
    requires store.items == Saved(before, Some(token), encode(user))
    requires parse(encode(user)) == Some(user)
    ensures GetUser(store, parse) == Some(user)
    ensures Token(store) == Some(token)
  {
  }

  /** `saveAuth` writes the two keys and no others. */
  lemma SaveKeepsOthers(items: map<string, string>, token: Option<string>, userText: string, key: string)
    requires key != TokenKey && key != UserKey
    ensures key in Saved(items, token, userText) <==> key in items
    ensures key in items ==> Saved(items, token, userText)[key] == items[key]
  {
  }

  /** After `clearAuth()` there is no user and no token, and every other
      key is as it was. */
  lemma ClearedForgetsSession(store: LocalStorage, before: map<string, string>, parse: string -> Option<StoredUser>)
    requires store.items == Cleared(before)
    ensures GetUser(store, parse).None? && Token(store).None?
    ensures forall k :: k in before && k != TokenKey && k != UserKey ==> k in store.items && store.items[k] == before[k]
    ensures forall k :: k in store.items ==> k in before
  {
  }
}
