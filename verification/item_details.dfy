/**
 * The item details page (frontend/src/pages/ItemDetails.jsx): fetching one
 * item, the image gallery and its selected image, the enquiry form's email
 * field and button, and the status of the enquiry in flight. Requests and
 * timers are not run here: each asynchronous step is a method the page
 * calls when the response or the timer arrives, with the reply as argument.
 */
module ItemDetails {
  import opened Wrappers
  import opened Text
  import opened ItemModel
  import ItemRoutes
  import EmailService

  const UPLOADS_PREFIX: string := "/uploads/"
  const FETCH_FAILED_MESSAGE: string := "Failed to fetch item details"
  const ENQUIRY_FAILED_MESSAGE: string := "Failed to send enquiry"

  /** The `enquiryStatus` state. */
  datatype EnquiryStatus = EnquiryStatus(loading: bool, success: bool, error: Option<string>)

  const IDLE: EnquiryStatus := EnquiryStatus(false, false, None)

  /** What the enquiry post brings back: a 2xx reply and its body's `success` and `message`,
      an error reply and its body's `message`, or no reply at all. */
  datatype EnquiryReply =
    | Ok2xx(success: bool, message: Option<string>)
    | HttpError(message: Option<string>)
    | NoResponse

  /** What the page renders, in the order of its early returns. */
  datatype View = Spinner | ErrorView(message: string) | NoItem | ItemView(item: Item)

  /** Where an uploaded image is served from. */
  function UploadPath(image: string): (path: string)
    ensures |path| == |UPLOADS_PREFIX| + |image| && path[|UPLOADS_PREFIX|..] == image
  {
    UPLOADS_PREFIX + image
  }

  /** Different images have different paths, so a selection picks out one image. */
  lemma UploadPathInjective(a: string, b: string)
    ensures UploadPath(a) == UploadPath(b) <==> a == b
  {
    if UploadPath(a) == UploadPath(b) {
      assert a == UploadPath(a)[|UPLOADS_PREFIX|..];
    }
  }

  /** `[item.coverImage, ...item.additionalImages]`. */
  function Gallery(item: Item): (g: seq<string>)
    ensures |g| == 1 + |item.additionalImages|
  {
    [item.coverImage] + item.additionalImages
  }

  /** The gallery shows the cover first and then every additional image, in order. */
  lemma GalleryOrder(item: Item)
    ensures Gallery(item)[0] == item.coverImage
    ensures forall k :: 0 <= k < |item.additionalImages| ==> Gallery(item)[k + 1] == item.additionalImages[k]
    ensures forall image :: image in Gallery(item) <==> image == item.coverImage || image in item.additionalImages
  {
  }

  /** A thumbnail gets the highlighted border when its path is the selected one. */
  predicate IsHighlighted(selectedImage: Option<string>, image: string) {
    selectedImage == Some(UploadPath(image))
  }

  /** The status an enquiry ends in: success only for a 2xx reply whose body says so; any
      other outcome shows the server's message when it sent a non-empty one, and the
      fallback otherwise. A 2xx reply without `success` is thrown as a new `Error`,
      which has no `response`, so it always shows the fallback. */
  function Settle(reply: EnquiryReply): (st: EnquiryStatus)
    ensures !st.loading
    ensures st.success <==> reply.Ok2xx? && reply.success
    ensures st.success ==> st.error.None?
    ensures !st.success ==> st.error.Some? && st.error.value != ""
    ensures reply.Ok2xx? && !reply.success ==> st.error == Some(ENQUIRY_FAILED_MESSAGE)
    ensures reply.HttpError? && Truthy(reply.message) ==> st.error == Some(reply.message.value)
    ensures reply.HttpError? && !Truthy(reply.message) ==> st.error == Some(ENQUIRY_FAILED_MESSAGE)
    ensures reply.NoResponse? ==> st.error == Some(ENQUIRY_FAILED_MESSAGE)
  {
    match reply
    case Ok2xx(success, _) =>
      if success then EnquiryStatus(false, true, None)
      else EnquiryStatus(false, false, Some(ENQUIRY_FAILED_MESSAGE))
    case HttpError(message) =>
      EnquiryStatus(false, false, Some(if Truthy(message) then message.value else ENQUIRY_FAILED_MESSAGE))
    case NoResponse =>
      EnquiryStatus(false, false, Some(ENQUIRY_FAILED_MESSAGE))
  }

  /** The success banner and the error banner are never shown together. */
  predicate Consistent(st: EnquiryStatus) {
    && !(st.success && st.error.Some?)
    && (st.error.Some? ==> st.error.value != "")
  }

  /** How the HTTP client hands an enquiry response to the page. */
  function ReplyOf(resp: ItemRoutes.EnquiryResponse): EnquiryReply {
    if 200 <= resp.status < 300 then Ok2xx(resp.success, Some(resp.message))
    else HttpError(Some(resp.message))
  }

  /** End to end: the page reports success exactly when the server mailed the enquiry, and
      otherwise shows the server's own message. */
  lemma EnquiryShownAsHandled(req: ItemRoutes.EnquiryRequest, lookup: ItemRoutes.Lookup,
                              env: EmailService.Env, deliver: EmailService.MailOptions -> bool, development: bool)
    ensures var out := ItemRoutes.HandleEnquiry(req, lookup, env, deliver, development);
      var st := Settle(ReplyOf(out.response));
      && (st.success <==> out.response.status == 200)
      && (st.success <==> out.mailed.Some? && EmailService.SendEnquiryEmail(out.mailed, req.email, env, deliver))
      && (!st.success ==> st.error == Some(out.response.message))
  {
    var out := ItemRoutes.HandleEnquiry(req, lookup, env, deliver, development);
    assert out.response.message != "";
  }

  class ItemDetailsPage {
    const id: string
    var item: Option<Item>
    var loading: bool
    var error: Option<string>
    var selectedImage: Option<string>
    var enquiryStatus: EnquiryStatus
    var userEmail: string

    ghost predicate Valid()
      reads this
    {
      Consistent(enquiryStatus)
    }

    /** The page as first rendered for the item `id`, before its fetch completes. */
    constructor (id: string)
      ensures Valid()
      ensures this.id == id && item.None? && loading && error.None? && selectedImage.None?
      ensures enquiryStatus == IDLE && userEmail == ""
    {
      this.id := id;
      item, loading, error, selectedImage := None, true, None, None;
      enquiryStatus, userEmail := IDLE, "";
    }

    /** What the page renders. */
    function Render(): (v: View)
      reads this
      ensures v.Spinner? <==> loading
      ensures v.ErrorView? <==> !loading && Truthy(error)
      ensures v.NoItem? <==> !loading && !Truthy(error) && item.None?
      ensures v.ItemView? <==> !loading && !Truthy(error) && item.Some?
      ensures v.ItemView? ==> item == Some(v.item)
    {
      if loading then Spinner
      else if Truthy(error) then ErrorView(error.value)
      else if item.None? then NoItem
      else ItemView(item.value)
    }

    /** The enquiry button is disabled while an enquiry is in flight or the email field is empty. */
    predicate EnquireDisabled()
      reads this
    {
      enquiryStatus.loading || userEmail == ""
    }

    /** The fetched item arrived: show it, with its cover selected. */
    method OnFetchSuccess(fetched: Item)
      requires Valid()
      modifies this
      ensures Valid()
      ensures item == Some(fetched) && !loading && error == old(error)
      ensures selectedImage == Some(UploadPath(fetched.coverImage))
      ensures IsHighlighted(selectedImage, fetched.coverImage)
      ensures enquiryStatus == old(enquiryStatus) && userEmail == old(userEmail)
    {
      item := Some(fetched);
      selectedImage := Some(UploadPath(fetched.coverImage));
      loading := false;
    }

    /** The fetch failed: show the fixed error message. */
    method OnFetchFailure()
      requires Valid()
      modifies this
      ensures Valid()
      ensures error == Some(FETCH_FAILED_MESSAGE) && !loading
      ensures Render() == ErrorView(FETCH_FAILED_MESSAGE)
      ensures item == old(item) && selectedImage == old(selectedImage)
      ensures enquiryStatus == old(enquiryStatus) && userEmail == old(userEmail)
    {
      error := Some(FETCH_FAILED_MESSAGE);
      loading := false;
    }

    /** The fetch's response: the item on a 2xx reply. An error reply is thrown by the
        client; a 2xx reply whose body is `null` stores it as the item and then throws
        when the cover's path is read. Either way the catch shows the fixed error message. */
    method OnFetched(resp: ItemRoutes.ItemResponse)
      requires Valid()
      modifies this
      ensures Valid()
      ensures !loading
      ensures 200 <= resp.status < 300 && resp.item.Some? ==>
                && item == resp.item && error == old(error)
                && selectedImage == Some(UploadPath(resp.item.value.coverImage))
      ensures !(200 <= resp.status < 300) ==>
                && Render() == ErrorView(FETCH_FAILED_MESSAGE)
                && item == old(item) && selectedImage == old(selectedImage)
      ensures 200 <= resp.status < 300 && resp.item.None? ==>
                && Render() == ErrorView(FETCH_FAILED_MESSAGE)
                && item.None? && selectedImage == old(selectedImage)
      ensures enquiryStatus == old(enquiryStatus) && userEmail == old(userEmail)
    {
      if !(200 <= resp.status < 300) {
        OnFetchFailure();
      } else if resp.item.Some? {
        OnFetchSuccess(resp.item.value);
      } else {
        item := None;
        OnFetchFailure();
      }
    }

    /** A thumbnail click selects that image, and only thumbnails of that image are highlighted. */
    method SelectImage(image: string)
      requires Valid()
      modifies this
      ensures Valid()
      ensures selectedImage == Some(UploadPath(image))
      ensures forall other :: IsHighlighted(selectedImage, other) <==> other == image
      ensures item == old(item) && loading == old(loading) && error == old(error)
      ensures enquiryStatus == old(enquiryStatus) && userEmail == old(userEmail)
    {
      selectedImage := Some(UploadPath(image));
      forall other
        ensures IsHighlighted(selectedImage, other) <==> other == image
      {
        UploadPathInjective(other, image);
      }
    }

    method SetUserEmail(value: string)
      requires Valid()
      modifies this
      ensures Valid()
      ensures userEmail == value
      ensures EnquireDisabled() <==> enquiryStatus.loading || value == ""
      ensures item == old(item) && loading == old(loading) && error == old(error)
      ensures selectedImage == old(selectedImage) && enquiryStatus == old(enquiryStatus)
    {
      userEmail := value;
    }

    /** Starting an enquiry: the status goes to loading, which disables the button, and the
        request carries the page's identifier, the item's details and the typed email. */
    method BeginEnquiry() returns (req: ItemRoutes.EnquiryRequest)
      requires Valid()
      modifies this
      ensures Valid()
      ensures enquiryStatus == EnquiryStatus(true, false, None)
      ensures EnquireDisabled()
      ensures req.itemId == Some(id) && req.email == Some(userEmail)
      ensures req.details == if item.Some? then Some(ItemRoutes.DetailsOf(item.value)) else None
      ensures item == old(item) && loading == old(loading) && error == old(error)
      ensures selectedImage == old(selectedImage) && userEmail == old(userEmail)
    {
      enquiryStatus := EnquiryStatus(true, false, None);
      var details := if item.Some? then Some(ItemRoutes.DetailsOf(item.value)) else None;
      req := ItemRoutes.EnquiryRequest(Some(id), details, Some(userEmail));
    }

    /** The enquiry's reply arrived. */
    method CompleteEnquiry(reply: EnquiryReply)
      requires Valid()
      modifies this
      ensures Valid()
      ensures enquiryStatus == Settle(reply)
      ensures !enquiryStatus.loading
      ensures item == old(item) && loading == old(loading) && error == old(error)
      ensures selectedImage == old(selectedImage) && userEmail == old(userEmail)
    {
      enquiryStatus := Settle(reply);
    }

    /** The timer set after a success clears the status. */
    method OnSuccessTimeout()
      requires Valid()
      modifies this
      ensures Valid()
      ensures enquiryStatus == IDLE
      ensures item == old(item) && loading == old(loading) && error == old(error)
      ensures selectedImage == old(selectedImage) && userEmail == old(userEmail)
    {
      enquiryStatus := IDLE;
    }
  }
}
