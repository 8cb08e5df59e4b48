/**
 * The user serializer: it reads and writes `id`, `fullname`, `email` and
 * `password`, and never shows the password back. `create` builds a user,
 * hashes the password with `set_password` and saves; since the first save
 * hashes the password column once more, the stored value is the hash of
 * the hash (`Create`). `CreateFixed` is the evidently intended create, where
 * the raw password is hashed once. `update` hashes a given password,
 * removes it from the data, assigns the remaining fields one by one and
 * saves.
 */
module UserSerializer {
  import opened Wrappers
  import opened Text
  import opened UserModel

  /** The data the serializer validated for a create: the full name may be absent. */
  datatype CreateData = CreateData(fullname: Option<string>, email: string, password: string)

  /** What `create` ends in: the saved user, or the `KeyError` of a missing key. */
  datatype Created = Saved(user: User) | KeyError(key: string)

  /** A field `update` may assign. */
  datatype Attr = Fullname | Email | PasswordField

  /**
   * The serializer's checks on a submitted create. Every field is a
   * `CharField` with `allow_blank=False` and `trim_whitespace=True`: a value
   * that strips to nothing is refused, and the column lengths and the unique
   * email are checked on the stripped value.
   */
  predicate AcceptsCreate(data: CreateData, takenEmails: seq<string>) {
    (data.fullname.Some? ==> PyStrip(data.fullname.value) != [] && |PyStrip(data.fullname.value)| <= FullnameMaxLength)
    && PyStrip(data.email) != [] && |PyStrip(data.email)| <= EmailMaxLength
    && PyStrip(data.password) != [] && |PyStrip(data.password)| <= PasswordMaxLength
    && PyStrip(data.email) !in takenEmails
  }

  /** The validated data `create` receives: each submitted value stripped. */
  function Validated(data: CreateData): (v: CreateData)
    ensures v.fullname.Some? <==> data.fullname.Some?
  {
    CreateData(
      if data.fullname.Some? then Some(PyStrip(data.fullname.value)) else None,
      PyStrip(data.email),
      PyStrip(data.password))
  }

  /**
   * What an admitted create hands on: no field is blank or padded, every
   * value fits its column, and validating again changes nothing.
   */
  lemma AcceptedIsValidated(data: CreateData, takenEmails: seq<string>)
    requires AcceptsCreate(data, takenEmails)
    ensures var v := Validated(data);
      && v.email != [] && v.password != [] && (v.fullname.Some? ==> v.fullname.value != [])
      && |v.email| <= EmailMaxLength && |v.password| <= PasswordMaxLength
      && (v.fullname.Some? ==> |v.fullname.value| <= FullnameMaxLength)
      && Validated(v) == v
      && AcceptsCreate(v, takenEmails)
  {
    StripIdempotent(IsPySpace, data.email);
    StripIdempotent(IsPySpace, data.password);
    if data.fullname.Some? {
      StripIdempotent(IsPySpace, data.fullname.value);
    }
  }

  /**
   * `create` as written. Indexing the data for the full name fails when the
   * client left it out (the field has a default, so validation lets it
   * through); otherwise the stored password is `make_password` applied twice.
   */
  method Create(data: CreateData, newPk: nat) returns (r: Created)
    ensures data.fullname.None? ==> r == KeyError("fullname")
    ensures data.fullname.Some? ==> r.Saved? && fresh(r.user)
    ensures r.Saved? ==>
      r.user.pk == Some(newPk) && r.user.fullname == data.fullname.value && r.user.email == data.email &&
      r.user.password == Hashed(Hashed(Raw(data.password)))
  {
    if data.fullname.None? {
      return KeyError("fullname");
    }
    var user := new User(data.fullname, data.email);
    user.SetPassword(data.password);
    user.Save(newPk);
    r := Saved(user);
  }

  /** The create the serializer evidently means: the raw password given to the user and hashed once by the first save. */
  method CreateFixed(data: CreateData, newPk: nat) returns (r: Created)
    ensures data.fullname.None? ==> r == KeyError("fullname")
    ensures data.fullname.Some? ==> r.Saved? && fresh(r.user)
    ensures r.Saved? ==>
      r.user.pk == Some(newPk) && r.user.fullname == data.fullname.value && r.user.email == data.email &&
      r.user.password == Hashed(Raw(data.password)) && CheckPassword(data.password, r.user.password)
  {
    if data.fullname.None? {
      return KeyError("fullname");
    }
    var user := new User(data.fullname, data.email);
    user.password := Raw(data.password);
    user.Save(newPk);
    r := Saved(user);
  }

  /** An email the checks admit keeps the emails of the users unique once the user is stored. */
  lemma AcceptedEmailStaysUnique(data: CreateData, takenEmails: seq<string>)
    requires UniqueEmails(takenEmails) && AcceptsCreate(data, takenEmails)
    ensures UniqueEmails(takenEmails + [Validated(data).email])
  {
    var s := takenEmails + [Validated(data).email];
    forall i, j | 0 <= i < j < |s| ensures s[i] != s[j] {
      if j == |takenEmails| {
        assert s[i] == takenEmails[i];
      }
    }
  }

  /** A user created as written cannot sign in with the password it was created with. */
  method CreatedPasswordFailsCheck(data: CreateData, newPk: nat) returns (r: Created)
    ensures data.fullname.Some? ==> r.Saved?
    ensures r.Saved? ==> !CheckPassword(data.password, r.user.password)
  {
    r := Create(data, newPk);
    DoubleHashFailsCheck(data.password);
  }

  predicate DistinctAttrs(items: seq<(Attr, string)>) {
    forall i, j :: 0 <= i < j < |items| ==> items[i].0 != items[j].0
  }

  /** The value the items give an attribute: the last one listed, if any. */
  function ValueOf(items: seq<(Attr, string)>, attr: Attr): Option<string> {
    if items == [] then None
    else if items[|items| - 1].0 == attr then Some(items[|items| - 1].1)
    else ValueOf(items[..|items| - 1], attr)
  }

  lemma {:induction false} ValueOfSpec(items: seq<(Attr, string)>, attr: Attr)
    ensures ValueOf(items, attr).Some? <==> exists i :: 0 <= i < |items| && items[i].0 == attr
    ensures DistinctAttrs(items) ==>
      forall i :: 0 <= i < |items| && items[i].0 == attr ==> ValueOf(items, attr) == Some(items[i].1)
  {
    if items != [] {
      var init := items[..|items| - 1];
      ValueOfSpec(init, attr);
      forall i | 0 <= i < |init| ensures init[i] == items[i] {}
      if !(exists i :: 0 <= i < |items| && items[i].0 == attr) {
        assert items[|items| - 1].0 != attr;
      }
    }
  }

  /** The items without the password, in their order (`validated_data.pop('password')`). */
  function WithoutPassword(items: seq<(Attr, string)>): (r: seq<(Attr, string)>)
    ensures forall i :: 0 <= i < |r| ==> r[i].0 != PasswordField
    ensures |r| <= |items|
  {
    if items == [] then []
    else if items[0].0 == PasswordField then WithoutPassword(items[1..])
    else [items[0]] + WithoutPassword(items[1..])
  }

  lemma {:induction false} WithoutPasswordKeeps(items: seq<(Attr, string)>, attr: Attr)
    requires attr != PasswordField
    ensures ValueOf(WithoutPassword(items), attr) == ValueOf(items, attr)
  {
    if items != [] {
      var init := items[..|items| - 1];
      var last := items[|items| - 1];
      WithoutPasswordKeeps(init, attr);
      WithoutPasswordSnoc(init, last);
      assert init + [last] == items;
      var rest := WithoutPassword(init);
      if last.0 != PasswordField {
        assert (rest + [last])[..|rest|] == rest;
      } else {
        assert rest + [] == rest;
      }
    }
  }

  lemma {:induction false} WithoutPasswordSnoc(items: seq<(Attr, string)>, last: (Attr, string))
    ensures WithoutPassword(items + [last]) ==
      WithoutPassword(items) + (if last.0 == PasswordField then [] else [last])
  {
    if items == [] {
      assert items + [last] == [last];
    } else {
      assert (items + [last])[1..] == items[1..] + [last];
      WithoutPasswordSnoc(items[1..], last);
    }
  }

  /** One more item decides the attribute it names, and leaves the others as they were. */
  lemma ValueOfStep(items: seq<(Attr, string)>, i: nat, attr: Attr)
    requires i < |items|
    ensures ValueOf(items[..i + 1], attr) ==
      if items[i].0 == attr then Some(items[i].1) else ValueOf(items[..i], attr)
  {
    assert items[..i + 1][..i] == items[..i];
  }

  /** The `setattr` loop: each item's value assigned to its field, in order. */
  method AssignFields(instance: User, data: seq<(Attr, string)>)
    requires forall k :: 0 <= k < |data| ==> data[k].0 != PasswordField
    modifies instance
    ensures instance.pk == old(instance.pk) && instance.password == old(instance.password)
    ensures instance.fullname == ValueOf(data, Fullname).GetOr(old(instance.fullname))
    ensures instance.email == ValueOf(data, Email).GetOr(old(instance.email))
  {
    var i := 0;
    while i < |data|
      invariant 0 <= i <= |data|
      invariant instance.pk == old(instance.pk) && instance.password == old(instance.password)
      invariant instance.fullname == ValueOf(data[..i], Fullname).GetOr(old(instance.fullname))
      invariant instance.email == ValueOf(data[..i], Email).GetOr(old(instance.email))
    {
      ValueOfStep(data, i, Fullname);
      ValueOfStep(data, i, Email);
      if data[i].0 == Fullname {
        instance.fullname := data[i].1;
      } else {
        instance.email := data[i].1;
      }
      i := i + 1;
    }
    assert data[..|data|] == data;
  }

  /** The password `update` leaves: the hash of a given one, else the stored one. */
  function UpdatedPassword(items: seq<(Attr, string)>, stored: Password): (p: Password)
    ensures ValueOf(items, PasswordField).None? ==> p == stored
    ensures ValueOf(items, PasswordField).Some? ==> CheckPassword(ValueOf(items, PasswordField).value, p)
  {
    match ValueOf(items, PasswordField)
    case Some(raw) => Hashed(Raw(raw))
    case None => stored
  }

  /**
   * `update`: a given password is hashed and taken out of the data; every
   * other given field is assigned; fields the data does not name keep their
   * value; the user is saved, which does not hash again.
   */
  method Update(instance: User, validatedData: seq<(Attr, string)>)
    requires instance.pk.Some? && DistinctAttrs(validatedData)
    modifies instance
    ensures instance.pk == old(instance.pk)
    ensures instance.password == UpdatedPassword(validatedData, old(instance.password))
    ensures instance.fullname == ValueOf(validatedData, Fullname).GetOr(old(instance.fullname))
    ensures instance.email == ValueOf(validatedData, Email).GetOr(old(instance.email))
  {
    var data := validatedData;
    var raw := ValueOf(data, PasswordField);
    if raw.Some? {
      instance.SetPassword(raw.value);
      data := WithoutPassword(data);
    } else {
      ValueOfSpec(validatedData, PasswordField);
    }
    WithoutPasswordKeeps(validatedData, Fullname);
    WithoutPasswordKeeps(validatedData, Email);
    AssignFields(instance, data);
    instance.Save(0);
  }

  /** The fields `to_representation` shows: the password is write-only. */
  function Representation(user: User): (r: map<string, string>)
    reads user
    requires user.pk.Some?
    ensures r.Keys == {"id", "fullname", "email"}
    ensures "password" !in r
    ensures r["fullname"] == user.fullname && r["email"] == user.email
    ensures r["id"] == NatToString(user.pk.value) && DecimalValue(r["id"]) == user.pk.value
  {
    map["id" := NatToString(user.pk.value), "fullname" := user.fullname, "email" := user.email]
  }
}
