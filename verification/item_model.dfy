/** The Lost & Found report document: its fields, the `type` enumeration,
    the required fields and the defaults the schema fills in. */
module ItemModel {

  import opened Common

  /** The schema's `type` enumeration. */
  datatype ItemType = Lost | Found
  {
    /** The string stored in and served from the document. */
    function Name(): (s: string)
      ensures s == "lost" || s == "found"
    {
      match this
      case Lost => "lost"
      case Found => "found"
    }
  }

  /** Reads a `type` string against the enumeration: only the two exact,
      lower-case, untrimmed spellings are members. */
  function ParseType(s: string): (r: Option<ItemType>)
    ensures r.Some? <==> (s == "lost" || s == "found")
    ensures r.Some? ==> r.value.Name() == s
  {
    if s == "lost" then Some(Lost)
    else if s == "found" then Some(Found)
    else None
  }

  /** Each enumeration member is read back from its own name. */
  lemma ParseName(t: ItemType)
    ensures ParseType(t.Name()) == Some(t)
  {
  }

  /** A stored report, with the fields of the schema the report routes
      declare. `date` is kept as the text the client sent. */
  datatype Item = Item(
    id: Id,
    title: string,
    description: string,
    itemType: ItemType,
    location: string,
    date: string,
    contact: string,
    imageUrl: string,
    reportedBy: string,
    claimed: bool,
    claimedAt: Option<Time>,
    createdAt: Time)

  /** The schema's `required: true` fields: a required string may not be
      empty. */
  predicate HasRequiredFields(item: Item) {
    && |item.title| > 0
    && |item.description| > 0
    && |item.location| > 0
    && |item.date| > 0
    && |item.contact| > 0
    && |item.reportedBy| > 0
  }

  /** The claim pair agrees: `claimed` holds exactly when a claim time is set. */
  predicate ClaimConsistent(item: Item) {
    item.claimed <==> item.claimedAt.Some?
  }

  /** A new document, with the schema's defaults for the fields the caller
      leaves out: `imageUrl` becomes `''`, `claimed` false, `claimedAt` null,
      and `createdAt` is the save time. */
  function NewDocument(
    id: Id, title: string, description: string, itemType: ItemType,
    location: string, date: string, contact: string,
    imageUrl: Option<string>, reportedBy: string, claimed: Option<bool>, now: Time): (item: Item)
    ensures item.id == id && item.title == title && item.description == description
    ensures item.itemType == itemType && item.location == location
    ensures item.date == date && item.contact == contact && item.reportedBy == reportedBy
    ensures imageUrl.None? ==> item.imageUrl == ""
    ensures imageUrl.Some? ==> item.imageUrl == imageUrl.value
    ensures claimed.None? ==> !item.claimed
    ensures claimed.Some? ==> item.claimed == claimed.value
    ensures item.claimedAt.None?
    ensures item.createdAt == now
  {
    Item(id, title, description, itemType, location, date, contact,
         match imageUrl case Some(u) => u case None => "",
         reportedBy,
         match claimed case Some(c) => c case None => false,
         None, now)
  }
}
