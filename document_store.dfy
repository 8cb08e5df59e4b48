/**
 * The document store the services work on: four collections (forms, form
 * types, regulations, notifications), each a set of records keyed by
 * document id and kept in insertion order. An unsorted `find()` returns
 * MongoDB's natural order, which is taken here to be insertion order. Ids are strings; `ValidId` is the check
 * `ObjectId.isValid` makes of a string.
 */
module DocumentStore {
  import opened Wrappers
  import opened Text

  type Id = string

  /**
   * A string is a well-formed object id when it is 12 bytes long in UTF-8
   * (12 ASCII characters), or when it is 24 hexadecimal digits.
   */
  predicate ValidId(id: string) {
    (|id| == 12 && forall i :: 0 <= i < |id| ==> id[i] as int < 0x80)
    || (|id| == 24 && forall i :: 0 <= i < |id| ==> IsHexDigit(id[i]))
  }

  /** A 12-character string with a character outside ASCII is refused: its UTF-8 takes more than 12 bytes. */
  lemma TwelveCharsNeedAscii(id: string, k: nat)
    requires |id| == 12 && k < 12 && id[k] as int >= 0x80
    ensures !ValidId(id)
  {
  }

  predicate Distinct<T(==)>(s: seq<T>) {
    forall i, j :: 0 <= i < j < |s| ==> s[i] != s[j]
  }

  /** The ids other than `id`, in their order. */
  function Without(ids: seq<Id>, id: Id): (r: seq<Id>)
    ensures forall x :: x in r <==> x in ids && x != id
    ensures Distinct(ids) ==> Distinct(r)
    ensures id !in ids ==> r == ids
  {
    if ids == [] then []
    else
      var rest := Without(ids[1..], id);
      if ids[0] == id then rest
      else
        assert Distinct(ids) ==> ids[0] !in ids[1..];
        [ids[0]] + rest
  }

  /** One collection: its ids in insertion order and the record under each. */
  datatype Table<T> = Table(ids: seq<Id>, docs: map<Id, T>) {
    /** Every id is listed once, and the listed ids are exactly the keys. */
    ghost predicate Valid() {
      Distinct(ids) && forall id :: id in docs <==> id in ids
    }

    /** The collection with a new record appended. */
    function Insert(id: Id, doc: T): (t: Table<T>)
      requires Valid() && id !in docs
      ensures t.Valid()
      ensures t.docs == docs[id := doc] && t.ids == ids + [id]
    {
      Table(ids + [id], docs[id := doc])
    }

    /** The collection without the record under `id`; the others keep their order. */
    function Remove(id: Id): (t: Table<T>)
      requires Valid()
      ensures t.Valid()
      ensures t.docs == docs - {id} && t.ids == Without(ids, id)
      ensures id !in docs ==> t == this
    {
      Table(Without(ids, id), docs - {id})
    }

    /** The collection with the record under an existing id replaced; the order is kept. */
    function Replace(id: Id, doc: T): (t: Table<T>)
      requires Valid() && id in docs
      ensures t.Valid()
      ensures t.docs == docs[id := doc] && t.ids == ids
    {
      Table(ids, docs[id := doc])
    }

    /** Every record with its id, in insertion order (what an unsorted `find()` is taken to return). */
    function Rows(): (r: seq<(Id, T)>)
      requires Valid()
      ensures |r| == |ids|
      ensures forall i :: 0 <= i < |r| ==> r[i] == (ids[i], docs[ids[i]])
      ensures forall id :: id in docs <==> exists i :: 0 <= i < |r| && r[i].0 == id
      ensures forall i, j :: 0 <= i < j < |r| ==> r[i].0 != r[j].0
    {
      seq(|ids|, i requires 0 <= i < |ids| => (ids[i], docs[ids[i]]))
    }
  }

  function EmptyTable<T>(): (t: Table<T>)
    ensures t.Valid() && t.docs == map[]
  {
    Table([], map[])
  }

  /** Inserting a record and removing it again gives back the collection. */
  lemma InsertRemove<T>(t: Table<T>, id: Id, doc: T)
    requires t.Valid() && id !in t.docs
    ensures t.Insert(id, doc).Remove(id) == t
  {
    var ids := t.ids;
    assert id !in ids;
    WithoutAppend(ids, id);
    assert t.docs[id := doc] - {id} == t.docs;
  }

  lemma {:induction false} WithoutAppend(ids: seq<Id>, id: Id)
    requires id !in ids
    ensures Without(ids + [id], id) == ids
    decreases |ids|
  {
    if ids != [] {
      assert (ids + [id])[1..] == ids[1..] + [id];
      WithoutAppend(ids[1..], id);
      assert [ids[0]] + ids[1..] == ids;
    }
  }

  /** The mutable store: one field per collection, each replaced by the services that write it. */
  class Db {
    var forms: Table<Form>
    var formTypes: Table<FormType>
    var regulations: Table<Regulation>
    var notifications: Table<Notification>

    ghost predicate Valid()
      reads this
    {
      forms.Valid() && formTypes.Valid() && regulations.Valid() && notifications.Valid()
    }

    constructor ()
      ensures Valid()
      ensures forms.docs == map[] && formTypes.docs == map[]
      ensures regulations.docs == map[] && notifications.docs == map[]
    {
      forms := EmptyTable();
      formTypes := EmptyTable();
      regulations := EmptyTable();
      notifications := EmptyTable();
    }
  }

  /** A form: its name and description, the form type it belongs to and the URLs of its files. */
  datatype Form = Form(
    name: string,
    description: string,
    formTypeId: Id,
    url: Option<string>,
    docxUrl: Option<string>,
    createAt: nat)

  datatype FormType = FormType(name: string, description: string, createAt: nat)

  /** A calendar date as the source builds it with `new Date(text)`; its parsing is not modelled. */
  datatype Date = DateOf(text: string)

  datatype Regulation = Regulation(
    name: string,
    issuedDate: Date,
    updatedDate: Option<Date>,
    sourceUrl: string,
    updatedSource: Option<string>)

  datatype Notification = Notification(title: string, message: string, createdAt: nat)
}
