/**
 * The registration form's handler: five checks in a fixed order, a user
 * record built from the trimmed fields, and on success the record (as JSON)
 * and the address written to storage.
 */
module Register {
  import opened Wrappers
  import opened Text
  import opened Email
  import opened Json
  import opened Storage

  const NoName: string := "Please enter your name."
  const NoEmail: string := "Please enter your email."
  const BadEmail: string := "Enter a valid email."
  const NoPassword: string := "Please enter a password."
  const ShortPassword: string := "Password must be at least 6 characters."

  /** The shortest password accepted. */
  const MinPassword: nat := 6

  /** The stored user record; `createdAt` is the ISO time of registration, an input here. */
  datatype User = User(name: string, email: string, password: string, createdAt: string)

  /**
   * The message the first failing check shows, or nothing when every check
   * passes. Name and address are tested for blankness after trimming, but
   * the pattern runs on the address as typed.
   */
  function RegisterError(name: string, email: string, password: string): (r: Option<string>)
    ensures r.Some? ==> r.value in {NoName, NoEmail, BadEmail, NoPassword, ShortPassword}
    ensures r.None? ==> Trim(name) != "" && Trim(email) != "" && |password| >= MinPassword
  {
    if Trim(name) == "" then Some(NoName)
    else if Trim(email) == "" then Some(NoEmail)
    else if !ValidEmail(email) then Some(BadEmail)
    else if password == "" then Some(NoPassword)
    else if |password| < MinPassword then Some(ShortPassword)
    else None
  }

  /** The record built on success. */
  function NewUser(name: string, email: string, password: string, createdAt: string): (u: User)
    ensures u.name == Trim(name) && u.email == Lower(Trim(email))
    ensures u.password == password && u.createdAt == createdAt
  {
    User(Trim(name), Lower(Trim(email)), password, createdAt)
  }

  /** The record's members in the order the object literal lists them. */
  function Fields(u: User): (fields: seq<(string, string)>)
    ensures |fields| == 4
    ensures fields[0] == ("name", u.name) && fields[1] == ("email", u.email)
    ensures fields[2] == ("password", u.password) && fields[3] == ("createdAt", u.createdAt)
  {
    [("name", u.name), ("email", u.email), ("password", u.password), ("createdAt", u.createdAt)]
  }

  /** `JSON.stringify(user)` */
  function ProfileJson(u: User): (r: string)
    ensures |r| >= 2 && r[0] == '{' && r[|r| - 1] == '}'
  {
    EncodeObject(Fields(u))
  }

  /** What a successful registration leaves in storage. */
  function Registered(items: map<string, string>, u: User): (r: map<string, string>)
    ensures r.Keys == items.Keys + {ProfileKey, EmailKey}
    ensures r[EmailKey] == u.email && r[ProfileKey] == ProfileJson(u)
  {
    KeysDistinct();
    items[ProfileKey := ProfileJson(u)][EmailKey := u.email]
  }

  /**
   * `handleRegister`: shows the first failing check's message and writes
   * nothing, or writes the profile and then the address.
   */
  method HandleRegister(store: LocalStorage, name: string, email: string, password: string, createdAt: string)
    returns (error: Option<string>)
    modifies store
    ensures error == RegisterError(name, email, password)
    ensures error.Some? ==> store.items == old(store.items)
    ensures error.None? ==> store.items == Registered(old(store.items), NewUser(name, email, password, createdAt))
  {
    error := RegisterError(name, email, password);
    if error.Some? {
      return;
    }
    var user := NewUser(name, email, password, createdAt);
    store.SetItem(ProfileKey, ProfileJson(user));
    store.SetItem(EmailKey, user.email);
  }

  /** A name of white space alone, or no name, is the first thing reported. */
  lemma BlankNameFirst(name: string, email: string, password: string)
    requires AllSpace(name)
    ensures RegisterError(name, email, password) == Some(NoName)
  {
    TrimEmptyIffAllSpace(name);
  }

  /**
   * The checks run in order and the first failure alone decides the
   * message: each message, and which inputs get it.
   */
  lemma RegisterErrorOrder(name: string, email: string, password: string)
    ensures RegisterError(name, email, password) == Some(NoName) <==> AllSpace(name)
    ensures RegisterError(name, email, password) == Some(NoEmail) <==> !AllSpace(name) && AllSpace(email)
    ensures RegisterError(name, email, password) == Some(BadEmail) <==>
      !AllSpace(name) && !AllSpace(email) && !ValidEmail(email)
    ensures RegisterError(name, email, password) == Some(NoPassword) <==>
      !AllSpace(name) && ValidEmail(email) && password == ""
    ensures RegisterError(name, email, password) == Some(ShortPassword) <==>
      !AllSpace(name) && ValidEmail(email) && 0 < |password| < MinPassword
  {
    TrimEmptyIffAllSpace(name);
    TrimEmptyIffAllSpace(email);
    if ValidEmail(email) {
      ValidEmailNotBlank(email);
    }
  }

  /**
   * An address with white space around it is not blank, but the pattern
   * sees the white space and rejects it: "Enter a valid email.".
   */
  lemma PaddedEmailRejected(name: string, email: string, password: string)
    requires !AllSpace(name) && !AllSpace(email) && !NoSpace(email)
    ensures RegisterError(name, email, password) == Some(BadEmail)
  {
    RegisterErrorOrder(name, email, password);
    if ValidEmail(email) {
      ValidEmailIsTrimmed(email);
    }
  }

  /**
   * Registration accepts exactly the address and password pairs sign-in
   * accepts, once the name is not blank: both forms use the same pattern
   * and the same length check.
   */
  lemma SameAcceptedEmails(name: string, email: string, password: string)
    requires !AllSpace(name)
    ensures RegisterError(name, email, password).None? <==> ValidEmail(email) && |password| >= MinPassword
  {
    RegisterErrorOrder(name, email, password);
  }

  /**
   * After a successful registration the stored address is the record's,
   * which is the typed address in lower case (still valid, by
   * `NormalizeValidEmail`).
   */
  lemma RegisteredStores(items: map<string, string>, name: string, email: string, password: string, createdAt: string)
    requires RegisterError(name, email, password).None?
    ensures var u := NewUser(name, email, password, createdAt); var after := Registered(items, u);
      after[EmailKey] == u.email == Lower(email)
  {
    NormalizeValidEmail(email);
  }

  /** A registration changes no key but the profile and the address. */
  lemma RegisteredKeepsOthers(items: map<string, string>, u: User)
    ensures var after := Registered(items, u);
      forall k :: k in items && k != EmailKey && k != ProfileKey ==> k in after && after[k] == items[k]
  {
  }

  /** The stored profile reads back as the record's four members, in order. */
  lemma ProfileReadsBack(u: User)
    ensures DecodeObject(ProfileJson(u)) == Some(Fields(u))
  {
    DecodeEncodeObject(Fields(u));
  }
}
