/**
 * The sign-in form's submit handler: four checks in a fixed order, each
 * with its own message, and on success two storage writes.
 */
module Login {
  import opened Wrappers
  import opened Text
  import opened Email
  import opened Storage

  const NoEmail: string := "Please enter your email."
  const BadEmail: string := "Please enter a valid email."
  const NoPassword: string := "Please enter your password."
  const ShortPassword: string := "Password must be at least 6 characters."

  /** The shortest password accepted. */
  const MinPassword: nat := 6

  /** The message the first failing check shows, or nothing when every check passes. */
  function LoginError(email: string, password: string): (r: Option<string>)
    ensures r.Some? ==> r.value in {NoEmail, BadEmail, NoPassword, ShortPassword}
    ensures r.None? ==> email != "" && |password| >= MinPassword
  {
    if email == "" then Some(NoEmail)
    else if !ValidEmail(email) then Some(BadEmail)
    else if password == "" then Some(NoPassword)
    else if |password| < MinPassword then Some(ShortPassword)
    else None
  }

  /** What a successful sign-in leaves in storage: the normalised address and the password as typed. */
  function SignedIn(items: map<string, string>, email: string, password: string): (r: map<string, string>)
    ensures r.Keys == items.Keys + {EmailKey, PasswordKey}
    ensures r[PasswordKey] == password
  {
    items[EmailKey := Lower(Trim(email))][PasswordKey := password]
  }

  /**
   * `handleSubmit`: shows the first failing check's message and writes
   * nothing, or writes the two keys and shows no message.
   */
  method HandleSubmit(store: LocalStorage, email: string, password: string) returns (error: Option<string>)
    modifies store
    ensures error == LoginError(email, password)
    ensures error.Some? ==> store.items == old(store.items)
    ensures error.None? ==> store.items == SignedIn(old(store.items), email, password)
  {
    error := LoginError(email, password);
    if error.Some? {
      return;
    }
    var normalized := Lower(Trim(email));
    store.SetItem(EmailKey, normalized);
    store.SetItem(PasswordKey, password);
  }

  /** A form passes every check exactly when the address is valid and the password has six characters or more. */
  lemma LoginAccepts(email: string, password: string)
    ensures LoginError(email, password).None? <==> ValidEmail(email) && |password| >= MinPassword
  {
  }

  /**
   * The checks run in order and the first failure alone decides the
   * message: each message, and which inputs get it.
   */
  lemma LoginErrorOrder(email: string, password: string)
    ensures LoginError(email, password) == Some(NoEmail) <==> email == ""
    ensures LoginError(email, password) == Some(BadEmail) <==> email != "" && !ValidEmail(email)
    ensures LoginError(email, password) == Some(NoPassword) <==> ValidEmail(email) && password == ""
    ensures LoginError(email, password) == Some(ShortPassword) <==>
      ValidEmail(email) && 0 < |password| < MinPassword
  {
  }

  /** Emptiness is tested before trimming, so an address of white space alone is "not valid", not "missing". */
  lemma BlankEmailIsInvalid(email: string, password: string)
    requires email != "" && AllSpace(email)
    ensures LoginError(email, password) == Some(BadEmail)
  {
    assert Step(Start, email[0]).None?;
  }

  /** With a valid address, five characters of password are too few and six are enough. */
  lemma PasswordBoundary(email: string, five: string, six: string)
    requires ValidEmail(email) && |five| == 5 && |six| == 6
    ensures LoginError(email, five) == Some(ShortPassword)
    ensures LoginError(email, six) == None
  {
  }

  /**
   * After a successful sign-in the stored address is the typed one in lower
   * case (trimming has nothing to remove; the address stays valid by
   * `NormalizeValidEmail`), and the password is stored as typed.
   */
  lemma SignedInStores(items: map<string, string>, email: string, password: string)
    requires LoginError(email, password).None?
    ensures var after := SignedIn(items, email, password);
      after[EmailKey] == Lower(email) && after[PasswordKey] == password
  {
    NormalizeValidEmail(email);
    KeysDistinct();
  }

  /** A sign-in changes no key but the address and the password. */
  lemma SignedInKeepsOthers(items: map<string, string>, email: string, password: string)
    ensures var after := SignedIn(items, email, password);
      forall k :: k in items && k != EmailKey && k != PasswordKey ==> k in after && after[k] == items[k]
  {
  }
}
