/**
 * The user record of the Django service. A user has a full name (at most
 * 150 characters, 'Unknown' when none is given), an email that no other
 * user has, and a password column. `save` replaces the password by its
 * hash when the user has no primary key yet, that is on the first save;
 * `set_password` stores the hash of a raw password without saving.
 *
 * `make_password` is the free constructor `Hashed`: two hashes are equal
 * only when they hash the same thing, and a hash is never a raw password.
 */
module UserModel {
  import opened Wrappers

  const DefaultFullname: string := "Unknown"
  const FullnameMaxLength: nat := 150
  /** The default `max_length` of a Django `EmailField`. */
  const EmailMaxLength: nat := 254
  const PasswordMaxLength: nat := 128

  /** What the password column holds: a raw text, or `make_password` of a password. */
  datatype Password = Raw(text: string) | Hashed(of: Password)

  /** `check_password`: the stored value is the hash of the raw text. */
  predicate CheckPassword(raw: string, stored: Password) {
    stored == Hashed(Raw(raw))
  }

  class User {
    var pk: Option<nat>
    var fullname: string
    var email: string
    var password: Password

    /** `User(fullname=..., email=...)`: an unsaved user; an absent full name takes the default. */
    constructor (fullname: Option<string>, email: string)
      ensures this.pk == None && this.email == email && this.password == Raw("")
      ensures this.fullname == fullname.GetOr(DefaultFullname)
    {
      this.pk := None;
      this.fullname := fullname.GetOr(DefaultFullname);
      this.email := email;
      this.password := Raw("");
    }

    /**
     * `save`: on the first save the password is hashed and the database
     * assigns `newPk`; a later save writes the fields as they are.
     */
    method Save(newPk: nat)
      modifies this
      ensures old(pk).None? ==> pk == Some(newPk) && password == Hashed(old(password))
      ensures old(pk).Some? ==> pk == old(pk) && password == old(password)
      ensures fullname == old(fullname) && email == old(email)
    {
      if pk.None? {
        password := Hashed(password);
        pk := Some(newPk);
      }
    }

    /** `set_password`: the hash of the raw text, not yet saved. */
    method SetPassword(rawPassword: string)
      modifies this
      ensures password == Hashed(Raw(rawPassword)) && CheckPassword(rawPassword, password)
      ensures pk == old(pk) && fullname == old(fullname) && email == old(email)
    {
      password := Hashed(Raw(rawPassword));
    }

    /** `__str__`: a user reads as its full name. */
    function Str(): (s: string)
      reads this
      ensures s == fullname
    {
      fullname
    }
  }

  /** A new user reads as the full name it was given, or as 'Unknown' when it was given none. */
  method NewUserReads(fullname: Option<string>, email: string) returns (s: string)
    ensures fullname.Some? ==> s == fullname.value
    ensures fullname.None? ==> s == "Unknown"
  {
    var user := new User(fullname, email);
    s := user.Str();
  }

  /** A password hashed twice does not check against the password itself. */
  lemma DoubleHashFailsCheck(raw: string)
    ensures !CheckPassword(raw, Hashed(Hashed(Raw(raw))))
    ensures CheckPassword(raw, Hashed(Raw(raw)))
  {
    assert Hashed(Raw(raw)) != Raw(raw);
  }

  /** Every email of the list is distinct from the others: the uniqueness the column declares. */
  predicate UniqueEmails(emails: seq<string>) {
    forall i, j :: 0 <= i < j < |emails| ==> emails[i] != emails[j]
  }
}
