/**
 * The item document schema (backend/models/Item.js): which documents the
 * document mapper accepts, and what it stores for them. Creating a document
 * trims the name, fills in the creation time when none is given, stamps the
 * update time, and then validates the required fields and the type
 * enumeration; a document that fails is not stored and the failure names
 * every offending field.
 */
module ItemModel {
  import opened Wrappers
  import opened Text

  /** The `enum` of the `itemType` path. */
  const ITEM_TYPES: seq<string> := ["Shirt", "Pant", "Shoes", "Sports Gear", "Other"]

  predicate IsItemType(t: string) {
    t == "Shirt" || t == "Pant" || t == "Shoes" || t == "Sports Gear" || t == "Other"
  }

  /** The enumeration lists exactly the accepted types. */
  lemma ItemTypesEnumerated(t: string)
    ensures IsItemType(t) <==> t in ITEM_TYPES
  {
  }

  /** A stored item document; times are milliseconds since the epoch. */
  datatype Item = Item(
    id: string,
    itemName: string,
    itemType: string,
    description: string,
    coverImage: string,
    additionalImages: seq<string>,
    createdAt: int,
    updatedAt: int)

  /** The fields handed to the model's constructor; `None` is an absent field. */
  datatype ItemInput = ItemInput(
    itemName: Option<string>,
    itemType: Option<string>,
    description: Option<string>,
    coverImage: Option<string>,
    additionalImages: seq<string>,
    createdAt: Option<int>)

  /** The schema paths that carry a validator. */
  datatype Path = ItemNamePath | ItemTypePath | DescriptionPath | CoverImagePath

  /** What a persisted item always satisfies. */
  predicate ValidItem(item: Item) {
    && item.itemName != ""
    && Trim(item.itemName) == item.itemName
    && IsItemType(item.itemType)
    && item.description != ""
    && item.coverImage != ""
  }

  /** The name after the schema's `trim` setter has run. */
  function CastName(v: Option<string>): Option<string> {
    match v
    case Some(s) => Some(Trim(s))
    case None => None
  }

  /** Whether the validator of path `p` fails on `input`, after casting; `required` on a
      string path accepts exactly a truthy value. */
  predicate Fails(input: ItemInput, p: Path) {
    match p
    case ItemNamePath => !Truthy(CastName(input.itemName))
    case ItemTypePath => !(Truthy(input.itemType) && IsItemType(input.itemType.value))
    case DescriptionPath => !Truthy(input.description)
    case CoverImagePath => !Truthy(input.coverImage)
  }

  /** The paths whose validators fail on `input`, after casting. */
  function Violations(input: ItemInput): (bad: set<Path>)
    ensures ItemNamePath in bad <==> !Truthy(CastName(input.itemName))
    ensures ItemTypePath in bad <==> !(Truthy(input.itemType) && IsItemType(input.itemType.value))
    ensures DescriptionPath in bad <==> !Truthy(input.description)
    ensures CoverImagePath in bad <==> !Truthy(input.coverImage)
  {
    set p | p in {ItemNamePath, ItemTypePath, DescriptionPath, CoverImagePath} && Fails(input, p)
  }

  /** Builds and validates a document with the given identifier at time `now`. */
  function Create(input: ItemInput, id: string, now: int): (r: Result<Item, set<Path>>)
    ensures r.Failure? <==> Violations(input) != {}
    ensures r.Failure? ==> r.error == Violations(input)
    ensures r.Success? ==> r.value.id == id
  {
    if Violations(input) != {} then Failure(Violations(input))
    else Success(Item(
      id,
      Trim(input.itemName.value),
      input.itemType.value,
      input.description.value,
      input.coverImage.value,
      input.additionalImages,
      input.createdAt.GetOr(now),
      input.createdAt.GetOr(now)))
  }

  /** Every document that passes validation satisfies the item invariant, and keeps
      the given fields: the name trimmed, the rest as given, the creation time
      defaulting to `now`. A new document's update time is its creation time, as the
      timestamps option stamps it on the first save. */
  lemma CreateValid(input: ItemInput, id: string, now: int)
    requires Create(input, id, now).Success?
    ensures var item := Create(input, id, now).value;
      && ValidItem(item)
      && item.itemName == Trim(input.itemName.value)
      && Some(item.itemType) == input.itemType
      && Some(item.description) == input.description
      && Some(item.coverImage) == input.coverImage
      && item.additionalImages == input.additionalImages
      && item.createdAt == (if input.createdAt.Some? then input.createdAt.value else now)
      && item.updatedAt == item.createdAt
  {
    TrimIdempotent(input.itemName.value);
  }

  /** A name that is empty after trimming is rejected, whatever else is given. */
  lemma BlankNameRejected(input: ItemInput, id: string, now: int)
    requires input.itemName.None? || AllWhitespace(input.itemName.value)
    ensures Create(input, id, now).Failure?
    ensures ItemNamePath in Create(input, id, now).error
  {
    if input.itemName.Some? {
      TrimEmptyIff(input.itemName.value);
    }
  }

  /** The fields of a stored item, as they would be handed back to the constructor. */
  function InputOf(item: Item): ItemInput {
    ItemInput(Some(item.itemName), Some(item.itemType), Some(item.description),
              Some(item.coverImage), item.additionalImages, Some(item.createdAt))
  }

  /** Casting is idempotent: a valid item, handed back to the constructor, is accepted
      and comes back unchanged, apart from its update time, which becomes its creation
      time whatever the clock says. */
  lemma RecreateValid(item: Item, now: int)
    requires ValidItem(item)
    ensures Create(InputOf(item), item.id, now) == Success(item.(updatedAt := item.createdAt))
  {
    TrimIdempotent(item.itemName);
  }
}
