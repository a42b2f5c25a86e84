/** The item records shared by the API routes and the pages: the two closed
    string enumerations, the stored Item and the CreateItemInput a report
    form submits. */
module ItemTypes {
  import opened Common

  /** "lost" | "found" */
  datatype ItemType = Lost | Found

  /** "active" | "claimed" | "returned" */
  datatype ItemStatus = Active | Claimed | Returned

  function TypeName(t: ItemType): string
  {
    match t
    case Lost => "lost"
    case Found => "found"
  }

  function StatusName(s: ItemStatus): string
  {
    match s
    case Active => "active"
    case Claimed => "claimed"
    case Returned => "returned"
  }

  /** The string values admitted by the ItemType union: exactly "lost" and
      "found", each naming one constructor. */
  function ParseType(s: string): (r: Option<ItemType>)
    ensures r.Some? <==> s == "lost" || s == "found"
    ensures r.Some? ==> TypeName(r.value) == s
  {
    if s == "lost" then Some(Lost)
    else if s == "found" then Some(Found)
    else None
  }

  /** The string values admitted by the ItemStatus union: exactly "active",
      "claimed" and "returned". */
  function ParseStatus(s: string): (r: Option<ItemStatus>)
    ensures r.Some? <==> s == "active" || s == "claimed" || s == "returned"
    ensures r.Some? ==> StatusName(r.value) == s
  {
    if s == "active" then Some(Active)
    else if s == "claimed" then Some(Claimed)
    else if s == "returned" then Some(Returned)
    else None
  }

  /** Naming and parsing are inverse: every enumeration value has its own
      string, so the names are pairwise distinct. */
  lemma NamesRoundTrip(t: ItemType, s: ItemStatus)
    ensures ParseType(TypeName(t)) == Some(t)
    ensures ParseStatus(StatusName(s)) == Some(s)
  {
  }

  /** interface Item. contact_phone and image_url are the only optional
      fields. */
  datatype Item = Item(
    id: int,
    itemType: ItemType,
    title: string,
    description: string,
    category: string,
    location: string,
    dateReported: string,
    contactName: string,
    contactEmail: string,
    contactPhone: Option<string>,
    status: ItemStatus,
    imageUrl: Option<string>,
    createdAt: string,
    updatedAt: string)

  /** interface CreateItemInput: Item without id, status, created_at and
      updated_at. */
  datatype CreateItemInput = CreateItemInput(
    itemType: ItemType,
    title: string,
    description: string,
    category: string,
    location: string,
    dateReported: string,
    contactName: string,
    contactEmail: string,
    contactPhone: Option<string>,
    imageUrl: Option<string>)

  /** The client-supplied part of a stored item. */
  function InputOf(item: Item): CreateItemInput
  {
    CreateItemInput(item.itemType, item.title, item.description, item.category,
      item.location, item.dateReported, item.contactName, item.contactEmail,
      item.contactPhone, item.imageUrl)
  }

  /** A stored item built from an input plus the four server-assigned fields. */
  function WithServerFields(input: CreateItemInput, id: int, status: ItemStatus,
                            createdAt: string, updatedAt: string): Item
  {
    Item(id, input.itemType, input.title, input.description, input.category,
      input.location, input.dateReported, input.contactName, input.contactEmail,
      input.contactPhone, status, input.imageUrl, createdAt, updatedAt)
  }

  /** An Item is exactly a CreateItemInput plus id, status, created_at and
      updated_at: the two constructions are inverse. */
  lemma ItemSplitsIntoInputAndServerFields(item: Item, input: CreateItemInput,
                                           id: int, status: ItemStatus, c: string, u: string)
    ensures InputOf(WithServerFields(input, id, status, c, u)) == input
    ensures WithServerFields(InputOf(item), item.id, item.status, item.createdAt, item.updatedAt) == item
  {
  }
}
