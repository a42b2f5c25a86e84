/** app/admin/page.tsx: the admin dashboard's state (the item list, the item
    being edited, the form draft and the status filter) and the handlers that
    update it. Requests the handlers send are returned as values; the
    responses the server gives are parameters. */
module AdminPage {
  import opened Common
  import opened ItemTypes
  import opened ImageUpload

  /** The page's own `interface Item`: phone and image are plain strings and
      there are no timestamps. */
  datatype AdminItem = AdminItem(
    id: int, itemType: ItemType, title: string, description: string,
    category: string, location: string, dateReported: string,
    contactName: string, contactEmail: string, contactPhone: string,
    status: ItemStatus, imageUrl: string)

  /** `Partial<Item>`: every field may be missing. */
  datatype Draft = Draft(
    id: Option<int>, itemType: Option<ItemType>, title: Option<string>,
    description: Option<string>, category: Option<string>, location: Option<string>,
    dateReported: Option<string>, contactName: Option<string>,
    contactEmail: Option<string>, contactPhone: Option<string>,
    status: Option<ItemStatus>, imageUrl: Option<string>)

  /** `{}` */
  const EmptyDraft: Draft :=
    Draft(None, None, None, None, None, None, None, None, None, None, None, None)

  /** An Item used as a Partial<Item>: every field present. */
  function DraftOf(x: AdminItem): Draft
  {
    Draft(Some(x.id), Some(x.itemType), Some(x.title), Some(x.description),
          Some(x.category), Some(x.location), Some(x.dateReported), Some(x.contactName),
          Some(x.contactEmail), Some(x.contactPhone), Some(x.status), Some(x.imageUrl))
  }

  /** The path a request goes to: `/api/items` or `/api/items/${id}`. */
  datatype Endpoint = Collection | ItemAt(id: int)

  /** A fetch the dashboard sends: method, path and JSON body. */
  datatype HttpRequest = HttpRequest(verb: string, endpoint: Endpoint, body: Option<Draft>)

  /** What `await (await fetch("/api/items")).json()` produced: the call
      threw, or the body was an array, or some other JSON value. */
  datatype Fetched = FetchThrew | ArrayBody(list: seq<AdminItem>) | NonArrayBody

  // ---------------------------------------------------------------------
  // The pure list operations

  /** filteredItems: the whole list for "all", otherwise the items whose
      status is the filter string. */
  function FilterByStatus(items: seq<AdminItem>, filter: string): seq<AdminItem>
  {
    if filter == "all" then items else Filter(items, HasStatus(filter))
  }

  /** `item.status === filterStatus` */
  function HasStatus(filter: string): AdminItem -> bool
  {
    (x: AdminItem) => StatusName(x.status) == filter
  }

  /** `items.filter((item) => item.id !== id)` */
  function WithoutId(items: seq<AdminItem>, id: int): seq<AdminItem>
  {
    Filter(items, IdIsNot(id))
  }

  /** `item.id !== id` */
  function IdIsNot(id: int): AdminItem -> bool
  {
    (x: AdminItem) => x.id != id
  }

  /** `items.map((item) => (item.id === id ? result : item))` */
  function ReplaceById(items: seq<AdminItem>, id: int, result: AdminItem): seq<AdminItem>
  {
    if items == [] then []
    else [if items[0].id == id then result else items[0]] + ReplaceById(items[1..], id, result)
  }

  /** `editingId ? ... : ...`: null and 0 are falsy. */
  predicate IsEditing(editingId: Option<int>)
  {
    editingId.Some? && editingId.value != 0
  }

  /** The request handleSaveItem sends: PUT to the edited item, else POST. */
  function SaveRequest(editingId: Option<int>, body: Draft): (r: HttpRequest)
    ensures r.body == Some(body)
    ensures r.verb == "PUT" <==> IsEditing(editingId)
    ensures r.verb == "POST" <==> !IsEditing(editingId)
    ensures IsEditing(editingId) ==> r.endpoint == ItemAt(editingId.value)
    ensures !IsEditing(editingId) ==> r.endpoint == Collection
  {
    if IsEditing(editingId) then HttpRequest("PUT", ItemAt(editingId.value), Some(body))
    else HttpRequest("POST", Collection, Some(body))
  }

  /** The list after a successful save: the edited item replaced, or the
      created one appended. */
  function SavedItems(items: seq<AdminItem>, editingId: Option<int>, result: AdminItem): seq<AdminItem>
  {
    if IsEditing(editingId) then ReplaceById(items, editingId.value, result) else items + [result]
  }

  /** The alert handleImageChange shows, given the check and what reading
      the file produced (None when FileReader failed). */
  function ImageAlert(check: ImageCheck, read: Option<string>): (r: Option<string>)
    ensures r.None? <==> check == NoFile || (check == Accepted && read.Some?)
  {
    match check
    case NoFile => None
    case WrongType => Some("Please upload a JPG, PNG or WEBP image.")
    case TooLarge => Some("Please upload an image smaller than 2MB.")
    case Accepted => if read.None? then Some("Failed to read image file") else None
  }

  /** getStatusColor */
  function StatusColor(status: string): string
  {
    if status == "active" then "bg-blue-100 text-blue-800"
    else if status == "claimed" then "bg-yellow-100 text-yellow-800"
    else if status == "returned" then "bg-green-100 text-green-800"
    else "bg-gray-100 text-gray-800"
  }

  /** getTypeEmoji: a cross for "lost", a check mark for anything else. */
  function TypeEmoji(itemType: string): string
  {
    if itemType == "lost" then "\U{274C}" else "\U{2705}"
  }

  // ---------------------------------------------------------------------
  // Properties of the list operations

  /** The "all" filter shows everything; any other filter shows exactly the
      items with that status, in their original order (filtering a
      concatenation filters each part). A filter naming no status shows
      nothing. */
  lemma FilteredItemsMeans(items: seq<AdminItem>, more: seq<AdminItem>, filter: string)
    ensures filter == "all" ==> FilterByStatus(items, filter) == items
    ensures filter != "all" ==>
      (forall x :: x in FilterByStatus(items, filter) <==> x in items && StatusName(x.status) == filter)
    ensures FilterByStatus(items + more, filter) == FilterByStatus(items, filter) + FilterByStatus(more, filter)
    ensures ParseStatus(filter).None? && filter != "all" ==> FilterByStatus(items, filter) == []
  {
    var p := HasStatus(filter);
    if filter != "all" {
      FilterAppend(items, more, p);
      FilterMembers(items, p);
      if ParseStatus(filter).None? {
        forall i | 0 <= i < |items| ensures !p(items[i]) {
          NamesRoundTrip(items[i].itemType, items[i].status);
        }
      }
    }
  }

  /** After a delete no item with that id is left, every other item is
      kept, in order; a list without that id is unchanged. */
  lemma WithoutIdMeans(items: seq<AdminItem>, more: seq<AdminItem>, id: int)
    ensures forall x :: x in WithoutId(items, id) <==> x in items && x.id != id
    ensures WithoutId(items + more, id) == WithoutId(items, id) + WithoutId(more, id)
    ensures (forall i :: 0 <= i < |items| ==> items[i].id != id) ==> WithoutId(items, id) == items
    ensures (exists i :: 0 <= i < |items| && items[i].id == id) ==> |WithoutId(items, id)| < |items|
  {
    var p := IdIsNot(id);
    FilterAppend(items, more, p);
    FilterMembers(items, p);
    if forall i :: 0 <= i < |items| ==> items[i].id != id {
      FilterKeepsAll(items, p);
    }
    if exists i :: 0 <= i < |items| && items[i].id == id {
      var i :| 0 <= i < |items| && items[i].id == id;
      FilterShrinks(items, p, i);
    }
  }

  /** The edit replaces exactly the items whose id is the edited id, each by
      the server's result, and keeps the length and every other item. */
  lemma {:induction false} ReplaceByIdMeans(items: seq<AdminItem>, id: int, result: AdminItem)
    ensures |ReplaceById(items, id, result)| == |items|
    ensures forall i :: 0 <= i < |items| ==>
      ReplaceById(items, id, result)[i] == if items[i].id == id then result else items[i]
  {
    if items != [] {
      ReplaceByIdMeans(items[1..], id, result);
      var r := ReplaceById(items, id, result);
      forall i | 0 <= i < |items|
        ensures r[i] == if items[i].id == id then result else items[i]
      {
        if i > 0 {
          assert r[i] == ReplaceById(items[1..], id, result)[i - 1];
        }
      }
    }
  }

  /** Editing an id the list does not hold changes nothing. */
  lemma {:induction false} ReplaceAbsentId(items: seq<AdminItem>, id: int, result: AdminItem)
    requires forall i :: 0 <= i < |items| ==> items[i].id != id
    ensures ReplaceById(items, id, result) == items
  {
    if items != [] {
      ReplaceAbsentId(items[1..], id, result);
    }
  }

  /** A save with editing id 0 is a create: POST to /api/items, and the
      result is appended at the end. */
  lemma ZeroIdCreates(items: seq<AdminItem>, body: Draft, result: AdminItem)
    ensures SaveRequest(Some(0), body) == HttpRequest("POST", Collection, Some(body))
    ensures SavedItems(items, Some(0), result) == items + [result]
    ensures SaveRequest(None, body) == SaveRequest(Some(0), body)
  {
  }

  /** The three statuses have three different colours, none of them the
      grey of an unknown status. */
  lemma StatusColorsDistinct(s: ItemStatus, t: ItemStatus, unknown: string)
    requires ParseStatus(unknown).None?
    ensures s != t ==> StatusColor(StatusName(s)) != StatusColor(StatusName(t))
    ensures StatusColor(StatusName(s)) != StatusColor(unknown)
    ensures StatusColor(unknown) == "bg-gray-100 text-gray-800"
  {
  }

  /** Lost and found items get different marks. */
  lemma TypeEmojiDistinct()
    ensures TypeEmoji(TypeName(Lost)) != TypeEmoji(TypeName(Found))
  {
  }

  // ---------------------------------------------------------------------
  // The component state

  class AdminDashboard {
    var items: seq<AdminItem>
    var editingId: Option<int>
    var formData: Draft
    var filterStatus: string

    /** The initial state: no items, nothing edited, an empty form, "all". */
    constructor ()
      ensures items == [] && editingId.None? && formData == EmptyDraft && filterStatus == "all"
    {
      items := [];
      editingId := None;
      formData := EmptyDraft;
      filterStatus := "all";
    }

    /** The list the page renders. */
    function FilteredItems(): seq<AdminItem>
      reads this
    {
      FilterByStatus(items, filterStatus)
    }

    /** fetchItems: the list is always an array; a non-array body gives [],
        a failed fetch leaves it as it was. */
    method FetchItems(response: Fetched)
      modifies this
      ensures items == match response
        case ArrayBody(list) => list
        case NonArrayBody => []
        case FetchThrew => old(items)
      ensures editingId == old(editingId) && formData == old(formData) && filterStatus == old(filterStatus)
    {
      match response
      case ArrayBody(list) => items := list;
      case NonArrayBody => items := [];
      case FetchThrew =>
    }

    /** handleDeleteItem: nothing without confirmation; otherwise a DELETE
        of that item, and on an ok response every item with that id leaves
        the list. `responseOk` is false both for a non-ok response and for a
        fetch that threw. */
    method DeleteItem(id: int, confirmed: bool, responseOk: bool) returns (request: Option<HttpRequest>)
      modifies this
      ensures request == if confirmed then Some(HttpRequest("DELETE", ItemAt(id), None)) else None
      ensures items == if confirmed && responseOk then WithoutId(old(items), id) else old(items)
      ensures editingId == old(editingId) && formData == old(formData) && filterStatus == old(filterStatus)
    {
      if !confirmed {
        return None;
      }
      request := Some(HttpRequest("DELETE", ItemAt(id), None));
      if responseOk {
        items := WithoutId(items, id);
      }
    }

    /** handleSaveItem: a draft without a title alerts and sends nothing;
        otherwise the draft goes to PUT or POST, and on an ok response the
        list takes the server's result and the form is reset. */
    method SaveItem(responseOk: bool, result: AdminItem) returns (alert: Option<string>, request: Option<HttpRequest>)
      modifies this
      ensures Falsy(old(formData).title) ==>
        alert == Some("Title is required") && request.None? &&
        items == old(items) && editingId == old(editingId) && formData == old(formData)
      ensures !Falsy(old(formData).title) ==>
        alert.None? && request == Some(SaveRequest(old(editingId), old(formData)))
      ensures !Falsy(old(formData).title) && responseOk ==>
        items == SavedItems(old(items), old(editingId), result) && formData == EmptyDraft && editingId.None?
      ensures !Falsy(old(formData).title) && !responseOk ==>
        items == old(items) && editingId == old(editingId) && formData == old(formData)
      ensures filterStatus == old(filterStatus)
    {
      if Falsy(formData.title) {
        return Some("Title is required"), None;
      }
      alert := None;
      request := Some(SaveRequest(editingId, formData));
      if responseOk {
        if IsEditing(editingId) {
          items := ReplaceById(items, editingId.value, result);
        } else {
          items := items + [result];
        }
        ResetForm();
      }
    }

    /** handleImageChange: the checks of ImageUpload, then the data URL read
        from the file (None when reading failed) becomes the draft's
        image_url. */
    method HandleImageChange(file: Option<ImageFile>, dataUrl: Option<string>) returns (alert: Option<string>)
      modifies this
      ensures alert == ImageAlert(CheckImage(file), dataUrl)
      ensures formData == if CheckImage(file) == Accepted && dataUrl.Some?
                          then old(formData).(imageUrl := dataUrl) else old(formData)
      ensures items == old(items) && editingId == old(editingId) && filterStatus == old(filterStatus)
    {
      var check := CheckImage(file);
      if check == NoFile {
        return None;
      }
      if check == WrongType {
        return Some("Please upload a JPG, PNG or WEBP image.");
      }
      if check == TooLarge {
        return Some("Please upload an image smaller than 2MB.");
      }
      if dataUrl.None? {
        return Some("Failed to read image file");
      }
      formData := formData.(imageUrl := dataUrl);
      alert := None;
    }

    /** resetForm: an empty draft and no item being edited. */
    method ResetForm()
      modifies this
      ensures formData == EmptyDraft && editingId.None?
      ensures items == old(items) && filterStatus == old(filterStatus)
    {
      formData := EmptyDraft;
      editingId := None;
    }

    /** startEdit: the draft is the item and its id is the one edited. */
    method StartEdit(item: AdminItem)
      modifies this
      ensures formData == DraftOf(item) && editingId == Some(item.id)
      ensures items == old(items) && filterStatus == old(filterStatus)
    {
      formData := DraftOf(item);
      editingId := Some(item.id);
    }
  }

  /** Editing an existing item and saving it: the PUT goes to that item's id,
      the list keeps its length and that item's position holds the result.
      An item titled "" cannot be saved. */
  lemma EditThenSave(items: seq<AdminItem>, k: nat, result: AdminItem)
    requires k < |items| && items[k].id != 0
    ensures var e := Some(items[k].id);
      SaveRequest(e, DraftOf(items[k])) == HttpRequest("PUT", ItemAt(items[k].id), Some(DraftOf(items[k]))) &&
      |SavedItems(items, e, result)| == |items| &&
      SavedItems(items, e, result)[k] == result
    ensures Falsy(DraftOf(items[k]).title) <==> items[k].title == ""
  {
    ReplaceByIdMeans(items, items[k].id, result);
  }
}
