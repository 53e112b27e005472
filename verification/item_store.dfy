/**
 * The item collection as the route handlers use it: `save` of a new
 * document (backend/routes/itemRoutes.js:125-132), `findById` and `find`.
 * The database itself is abstract: a write can fail for reasons outside the
 * model, which the caller supplies.
 */
module ItemStore {
  import opened Wrappers
  import opened ItemModel

  /** No two stored documents share an identifier. */
  ghost predicate UniqueIds(items: seq<Item>) {
    forall i, j :: 0 <= i < j < |items| ==> items[i].id != items[j].id
  }

  /** The first document with identifier `id`, if any. */
  function FindIn(items: seq<Item>, id: string): (r: Option<Item>)
    ensures r.Some? ==> r.value in items && r.value.id == id
    ensures r.None? <==> forall k :: 0 <= k < |items| ==> items[k].id != id
  {
    if items == [] then None
    else if items[0].id == id then Some(items[0])
    else FindIn(items[1..], id)
  }

  /** A document appended under a fresh identifier is what a lookup of that identifier finds,
      and lookups of every other identifier are unaffected. */
  lemma {:induction false} FindInAppended(items: seq<Item>, item: Item, id: string)
    requires forall k :: 0 <= k < |items| ==> items[k].id != item.id
    ensures FindIn(items + [item], id) == if id == item.id then Some(item) else FindIn(items, id)
  {
    if items != [] {
      assert (items + [item])[1..] == items[1..] + [item];
      FindInAppended(items[1..], item, id);
    }
  }

  /** Appending a valid document under a fresh identifier keeps the collection's invariant. */
  lemma AppendKeepsInvariant(items: seq<Item>, item: Item)
    requires UniqueIds(items) && forall k :: 0 <= k < |items| ==> ValidItem(items[k])
    requires ValidItem(item) && forall k :: 0 <= k < |items| ==> items[k].id != item.id
    ensures UniqueIds(items + [item]) && forall k :: 0 <= k < |items| + 1 ==> ValidItem((items + [item])[k])
  {
  }

  /** Why `save` rejected a document. */
  datatype SaveError =
    | ValidationFailed(paths: set<Path>)  // the schema validators failed
    | DuplicateKey                        // the identifier is already taken
    | WriteFailed(reason: string)         // the database could not be written

  /** The `message` of the error `save` throws. */
  function SaveErrorMessage(e: SaveError): string {
    match e
    case ValidationFailed(_) => "Item validation failed"
    case DuplicateKey => "E11000 duplicate key error"
    case WriteFailed(reason) => reason
  }

  class Store {
    var items: seq<Item>

    ghost predicate Valid()
      reads this
    {
      && UniqueIds(items)
      && forall k :: 0 <= k < |items| ==> ValidItem(items[k])
    }

    constructor ()
      ensures Valid() && items == []
    {
      items := [];
    }

    /** `Item.findById` for a well-formed identifier. */
    function FindById(id: string): (r: Option<Item>)
      reads this
      ensures r.Some? ==> r.value in items && r.value.id == id
      ensures r.None? <==> forall k :: 0 <= k < |items| ==> items[k].id != id
    {
      FindIn(items, id)
    }

    /** `Item.find()`: every document, in insertion order. */
    function All(): (r: seq<Item>)
      reads this
      requires Valid()
      ensures UniqueIds(r) && forall k :: 0 <= k < |r| ==> ValidItem(r[k])
      ensures forall id :: FindById(id).Some? <==> exists k :: 0 <= k < |r| && r[k].id == id
      ensures forall id :: FindById(id).Some? ==> FindById(id).value in r
      ensures r == items
    {
      items
    }

    /** `new Item(input).save()` with identifier `id` at time `now`; `writeError` is the
        failure the database reports, if it reports one. Validation runs before any write. */
    method Save(input: ItemInput, id: string, now: int, writeError: Option<string>)
      returns (r: Result<Item, SaveError>)
      requires Valid()
      modifies this
      ensures Valid()
      ensures Create(input, id, now).Failure? ==> r == Failure(ValidationFailed(Violations(input)))
      ensures Create(input, id, now).Success? && writeError.Some? ==> r == Failure(WriteFailed(writeError.value))
      ensures Create(input, id, now).Success? && writeError.None? && old(FindById(id)).Some? ==> r == Failure(DuplicateKey)
      ensures r.Success? <==> Create(input, id, now).Success? && writeError.None? && old(FindById(id)).None?
      ensures r.Success? ==> Success(r.value) == Create(input, id, now) && items == old(items) + [r.value]
      ensures r.Success? ==> FindById(id) == Some(r.value)
      ensures r.Success? ==> forall other :: other != id ==> FindById(other) == old(FindById(other))
      ensures r.Failure? ==> items == old(items)
    {
      var doc := Create(input, id, now);
      if doc.Failure? {
        return Failure(ValidationFailed(doc.error));
      }
      if writeError.Some? {
        return Failure(WriteFailed(writeError.value));
      }
      if FindIn(items, id).Some? {
        return Failure(DuplicateKey);
      }
      CreateValid(input, id, now);
      AppendKeepsInvariant(items, doc.value);
      forall other {
        FindInAppended(items, doc.value, other);
      }
      items := items + [doc.value];
      r := Success(doc.value);
    }
  }
}
