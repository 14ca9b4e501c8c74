/**
 * The browser's `localStorage` as the client uses it: a map from key to
 * string that `setItem` and `removeItem` change in place, and the keys the
 * forms, the dashboard and the header read and write.
 */
module Storage {
  import opened Wrappers

  /** The address of the user who is signed in. */
  const EmailKey: string := "escrow_user_email"

  /** The password given at the last sign-in. */
  const PasswordKey: string := "escrow_user_password"

  /** The JSON record written at registration. */
  const ProfileKey: string := "escrow_user_profile"

  /** The three fixed keys are different keys. */
  lemma KeysDistinct()
    ensures EmailKey != PasswordKey && EmailKey != ProfileKey && PasswordKey != ProfileKey
  {
    assert EmailKey[12] == 'e' && PasswordKey[12] == 'p' && ProfileKey[13] == 'r' && PasswordKey[13] == 'a';
  }

  /** The key under which one user's subscription list is kept: `subs_${email}`. */
  function SubsKey(email: string): (key: string)
    ensures |key| == 5 + |email| && key[..5] == "subs_" && key[5..] == email
    ensures key != EmailKey && key != PasswordKey && key != ProfileKey
  {
    assert ("subs_" + email)[0] == 's' != EmailKey[0];
    "subs_" + email
  }

  class LocalStorage {
    var items: map<string, string>

    constructor(initial: map<string, string>)
      ensures items == initial
    {
      items := initial;
    }

    /** `getItem(key)`: the stored string, or nothing (`null`). */
    function GetItem(key: string): (r: Option<string>)
      reads this
      ensures r.Some? <==> key in items
      ensures r.Some? ==> r.value == items[key]
    {
      if key in items then Some(items[key]) else None
    }

    /** `setItem(key, value)` */
    method SetItem(key: string, value: string)
      modifies this
      ensures items == old(items)[key := value]
    {
      items := items[key := value];
    }

    /** `removeItem(key)`: also fine for a key that is not there. */
    method RemoveItem(key: string)
      modifies this
      ensures items == old(items) - {key}
    {
      items := items - {key};
    }
  }
}
