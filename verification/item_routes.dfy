/**
 * The item API's request handlers (backend/routes/itemRoutes.js): the
 * enquiry endpoint's ordered checks, the two read endpoints and item
 * creation. Store lookups, the database and the mail transport are oracles:
 * a lookup outcome, a write error and a `deliver` function supplied by the
 * caller. Each handler catches every failure at its own boundary and turns
 * it into a status code.
 */
module ItemRoutes {
  import opened Wrappers
  import opened Text
  import opened ItemModel
  import opened ItemStore
  import opened EmailService

  // ----- The email pattern `^[^@\s]+@[^@\s]+\.[^@\s]+$` -----

  /** `[^@\s]`: neither `@` nor white space. */
  predicate EmailChar(c: char) {
    c != '@' && !IsWhitespace(c)
  }

  predicate EmailChars(s: string) {
    forall k :: 0 <= k < |s| ==> EmailChar(s[k])
  }

  /** The pattern matches `s` with its `@` at `at` and its `\.` at `dot`: the three runs
      around them are non-empty and made of `[^@\s]` characters. */
  predicate EmailSplit(s: string, at: int, dot: int) {
    && 0 < at && at + 1 < dot && dot + 1 < |s|
    && s[at] == '@' && s[dot] == '.'
    && EmailChars(s[..at]) && EmailChars(s[at + 1..dot]) && EmailChars(s[dot + 1..])
  }

  /** `/^[^@\s]+@[^@\s]+\.[^@\s]+$/.test(s)`: some choice of the `@` and the `.` matches. */
  predicate MatchesEmailPattern(s: string) {
    exists at, dot | 0 <= at < |s| && 0 <= dot < |s| :: EmailSplit(s, at, dot)
  }

  /** Occurrences of `c` in `s`. */
  function CountChar(s: string, c: char): nat {
    if s == [] then 0 else (if s[0] == c then 1 else 0) + CountChar(s[1..], c)
  }

  lemma {:induction false} CountCharConcat(a: string, b: string, c: char)
    ensures CountChar(a + b, c) == CountChar(a, c) + CountChar(b, c)
  {
    if a != [] {
      assert (a + b)[0] == a[0];
      assert (a + b)[1..] == a[1..] + b;
      CountCharConcat(a[1..], b, c);
    } else {
      assert a + b == b;
    }
  }

  lemma {:induction false} CountCharZero(s: string, c: char)
    ensures CountChar(s, c) == 0 <==> forall k :: 0 <= k < |s| ==> s[k] != c
  {
    if s != [] {
      CountCharZero(s[1..], c);
      assert forall k :: 1 <= k < |s| ==> s[k] == s[1..][k - 1];
    }
  }

  /** The index of the first `c` in `s`, or -1. */
  function IndexOf(s: string, c: char): (i: int)
    ensures -1 <= i < |s|
    ensures 0 <= i ==> s[i] == c
    ensures forall k :: 0 <= k < |s| && (i == -1 || k < i) ==> s[k] != c
  {
    if s == [] then -1
    else if s[0] == c then 0
    else var j := IndexOf(s[1..], c); if j == -1 then -1 else j + 1
  }

  /** A `.` that is neither the first nor the last character of `d`. */
  predicate HasInnerDot(d: string) {
    exists k | 0 < k < |d| - 1 :: d[k] == '.'
  }

  /** The pattern, character by character: exactly one `@`, no white space, something
      before the `@`, and after it a `.` that is neither first nor last. */
  predicate EmailShape(s: string) {
    var at := IndexOf(s, '@');
    && CountChar(s, '@') == 1
    && (forall k :: 0 <= k < |s| ==> !IsWhitespace(s[k]))
    && at > 0
    && HasInnerDot(s[at + 1..])
  }

  lemma EmailPatternCharacterwise(s: string)
    ensures MatchesEmailPattern(s) <==> EmailShape(s)
  {
    if MatchesEmailPattern(s) {
      var at, dot :| 0 <= at < |s| && 0 <= dot < |s| && EmailSplit(s, at, dot);
      MatchHasShape(s, at, dot);
    }
    if EmailShape(s) {
      ShapeMatches(s);
    }
  }

  lemma MatchHasShape(s: string, at: int, dot: int)
    requires EmailSplit(s, at, dot)
    ensures EmailShape(s)
  {
    var domain := s[at + 1..];
    assert domain == s[at + 1..dot] + [s[dot]] + s[dot + 1..];
    CountCharZero(s[..at], '@');
    CountCharZero(s[at + 1..dot], '@');
    CountCharZero(s[dot + 1..], '@');
    CountCharConcat(s[at + 1..dot], [s[dot]], '@');
    CountCharConcat(s[at + 1..dot] + [s[dot]], s[dot + 1..], '@');
    assert s == s[..at] + [s[at]] + domain;
    CountCharConcat(s[..at], [s[at]], '@');
    CountCharConcat(s[..at] + [s[at]], domain, '@');
    forall k | 0 <= k < |s| && k != at && k != dot
      ensures EmailChar(s[k])
    {
      if k < at {
        assert s[k] == s[..at][k];
      } else if k < dot {
        assert s[k] == s[at + 1..dot][k - at - 1];
      } else {
        assert s[k] == s[dot + 1..][k - dot - 1];
      }
    }
    assert IndexOf(s, '@') == at;
    assert domain[dot - at - 1] == '.';
  }

  lemma ShapeMatches(s: string)
    requires EmailShape(s)
    ensures MatchesEmailPattern(s)
  {
    var at := IndexOf(s, '@');
    var domain := s[at + 1..];
    var k :| 0 < k < |domain| - 1 && domain[k] == '.';
    var dot := at + 1 + k;
    assert s == s[..at] + [s[at]] + domain;
    CountCharConcat(s[..at], [s[at]], '@');
    CountCharConcat(s[..at] + [s[at]], domain, '@');
    CountCharZero(domain, '@');
    assert forall i :: 0 <= i < |s| && i != at ==> EmailChar(s[i]);
    assert EmailSplit(s, at, dot);
  }

  /** A string without `@` is refused. */
  lemma NotAnEmailRejected()
    ensures !MatchesEmailPattern("not-an-email")
  {
    var s := "not-an-email";
    forall at, dot | 0 <= at < |s| && 0 <= dot < |s|
      ensures !EmailSplit(s, at, dot)
    {
      assert s[at] != '@';
    }
  }

  /** A plain address is accepted. */
  lemma PlainAddressAccepted()
    ensures MatchesEmailPattern("buyer@shop.com")
  {
    assert EmailSplit("buyer@shop.com", 5, 10);
  }

  // ----- POST /enquiry -----

  /** The JSON body of an enquiry; `None` is an absent property. */
  datatype EnquiryRequest = EnquiryRequest(itemId: Option<string>, details: Option<ItemDetails>, email: Option<string>)

  /** What `Item.findById` does for the requested identifier. */
  datatype Lookup = Found(item: Item) | NotFound | Threw(message: string)

  /** The `error` property of a response body: absent, `null`, or a message. */
  datatype ErrorField = NoErrorField | NullError | ErrorText(text: string)

  datatype EnquiryResponse = EnquiryResponse(status: int, message: string, success: bool, error: ErrorField)

  /** The response, whether the store was consulted, and the details handed to the mailer, if it was called. */
  datatype EnquiryOutcome = EnquiryOutcome(response: EnquiryResponse, lookedUp: bool, mailed: Option<ItemDetails>)

  /** A stored item read as the mailer reads it. */
  function DetailsOf(item: Item): ItemDetails {
    ItemDetails(Some(item.itemName), Some(item.itemType), Some(item.description))
  }

  /** `!email || !pattern.test(email)` fails. */
  predicate ValidEmail(email: Option<string>) {
    Truthy(email) && MatchesEmailPattern(email.value)
  }

  /** The enquiry handler. `lookup` is what the store answers for the identifier and
      `deliver` what the transport does with a message; `development` is
      `NODE_ENV === 'development'`. */
  function HandleEnquiry(req: EnquiryRequest, lookup: Lookup, env: Env, deliver: MailOptions -> bool,
                         development: bool): (r: EnquiryOutcome)
    ensures r.response.status in {200, 400, 404, 500}
    ensures r.response.success <==> r.response.status == 200
    ensures r.response.status == 400 <==> !Truthy(req.itemId) || !ValidEmail(req.email)
    ensures !Truthy(req.itemId) ==> r.response.message == "Item ID is required"
    ensures Truthy(req.itemId) && !ValidEmail(req.email) ==> r.response.message == "A valid email is required"
    ensures r.lookedUp <==> r.response.status != 400
    ensures r.response.status == 404 <==> r.lookedUp && lookup.NotFound?
    ensures r.mailed.Some? <==> r.lookedUp && lookup.Found?
    ensures r.mailed.Some? ==> r.mailed.value == if req.details.Some? then req.details.value else DetailsOf(lookup.item)
    ensures r.response.status == 200 <==> r.mailed.Some? && SendEnquiryEmail(r.mailed, req.email, env, deliver)
    ensures r.response.error != NoErrorField <==> r.lookedUp && lookup.Threw?
    ensures r.response.error.ErrorText? <==> r.lookedUp && lookup.Threw? && development
    ensures r.response.status == 404 ==> r.response.message == "Item not found"
    ensures r.lookedUp && lookup.Threw? ==>
              r.response.status == 500 && r.response.message == "Internal server error. Please try again later."
    ensures r.lookedUp && lookup.Threw? && development ==> r.response.error == ErrorText(lookup.message)
    ensures r.mailed.Some? && r.response.status != 200 ==>
              r.response.status == 500 && r.response.message == "Failed to send enquiry. Please try again later."
    ensures r.response.status == 200 ==> r.response.message == "Enquiry sent successfully"
  {
    if !Truthy(req.itemId) then
      EnquiryOutcome(EnquiryResponse(400, "Item ID is required", false, NoErrorField), false, None)
    else if !ValidEmail(req.email) then
      EnquiryOutcome(EnquiryResponse(400, "A valid email is required", false, NoErrorField), false, None)
    else
      match lookup
      case Threw(m) =>
        var error := if development then ErrorText(m) else NullError;
        EnquiryOutcome(EnquiryResponse(500, "Internal server error. Please try again later.", false, error), true, None)
      case NotFound =>
        EnquiryOutcome(EnquiryResponse(404, "Item not found", false, NoErrorField), true, None)
      case Found(item) =>
        var details := if req.details.Some? then req.details.value else DetailsOf(item);
        if SendEnquiryEmail(Some(details), req.email, env, deliver) then
          EnquiryOutcome(EnquiryResponse(200, "Enquiry sent successfully", true, NoErrorField), true, Some(details))
        else
          EnquiryOutcome(EnquiryResponse(500, "Failed to send enquiry. Please try again later.", false, NoErrorField),
                         true, Some(details))
  }

  /** An enquiry that reaches the mailer goes to the address the caller gave, and its
      message names the item the mailer was given. */
  lemma EnquiryMailAddressed(req: EnquiryRequest, lookup: Lookup, env: Env, deliver: MailOptions -> bool,
                             development: bool)
    requires HandleEnquiry(req, lookup, env, deliver, development).response.status == 200
    ensures var d := HandleEnquiry(req, lookup, env, deliver, development).mailed.value;
      var m := ComposeMail(Some(d), req.email, env);
      && m.Some?
      && m.value.to == req.email.value
      && m.value.subject == SUBJECT_PREFIX + d.itemName.value
      && deliver(m.value)
  {
  }

  // ----- GET / and GET /:id -----

  datatype ItemResponse = ItemResponse(status: int, item: Option<Item>, message: string, error: Option<string>)

  /** `GET /:id`. A malformed identifier makes the lookup throw, like any other store failure. */
  function HandleGetById(lookup: Lookup): (r: ItemResponse)
    ensures r.status in {200, 404, 500}
    ensures r.status == 200 <==> lookup.Found?
    ensures r.item.Some? <==> lookup.Found?
    ensures lookup.Found? ==> r.item == Some(lookup.item)
    ensures r.status == 404 <==> lookup.NotFound?
    ensures lookup.NotFound? ==> r.message == "Item not found" && r.error.None?
    ensures r.status == 500 <==> r.error.Some?
    ensures lookup.Threw? ==> r.message == "Error fetching item" && r.error == Some(lookup.message)
  {
    match lookup
    case Found(item) => ItemResponse(200, Some(item), "", None)
    case NotFound => ItemResponse(404, None, "Item not found", None)
    case Threw(m) => ItemResponse(500, None, "Error fetching item", Some(m))
  }

  datatype ListResponse = ListResponse(status: int, items: seq<Item>, message: string, error: Option<string>)

  /** `GET /`: `find` is what `Item.find()` returns, or the message it throws. */
  function HandleList(find: Result<seq<Item>, string>): (r: ListResponse)
    ensures r.status == 200 <==> find.Success?
    ensures find.Success? ==> r.items == find.value
    ensures find.Failure? ==> r.status == 500 && r.items == [] && r.message == "Error fetching items"
                              && r.error == Some(find.error)
  {
    match find
    case Success(items) => ListResponse(200, items, "", None)
    case Failure(m) => ListResponse(500, [], "Error fetching items", Some(m))
  }
  /** When the query reads the store, the list answer holds every stored document, each
      one valid, and every document a lookup can find. */
  lemma ListAnswersStore(store: Store)
    requires store.Valid()
    ensures var r := HandleList(Success(store.All()));
      && r.status == 200
      && (forall k :: 0 <= k < |r.items| ==> ValidItem(r.items[k]))
      && forall id :: store.FindById(id).Some? ==> store.FindById(id).value in r.items
  {
  }


  // ----- POST / -----

  /** The text fields of a creation request. */
  datatype CreateBody = CreateBody(itemName: Option<string>, itemType: Option<string>, description: Option<string>)

  /** A file the upload middleware stored: the client's name and the name it was stored under. */
  datatype StoredFile = StoredFile(originalName: string, filename: string)

  /** `req.files`: the files stored per field; `None` is a field with no files. */
  datatype UploadedFiles = UploadedFiles(coverImage: Option<seq<StoredFile>>, additionalImages: Option<seq<StoredFile>>)

  datatype CreateResponse = CreateResponse(status: int, message: string, item: Option<Item>, error: Option<string>)

  /** The upload middleware's `maxCount` for additional images; a request over it is refused
      before the handler runs. The cover field's limit is one file. */
  const MAX_ADDITIONAL_IMAGES: nat := 10

  /** What JavaScript throws when `req.files` is undefined (a request that is not multipart). */
  const NO_FILES_MESSAGE: string := "Cannot read properties of undefined (reading 'coverImage')"

  /** `files.map(file => file.filename)`. */
  function Filenames(files: seq<StoredFile>): (names: seq<string>)
    ensures |names| == |files|
    ensures forall k :: 0 <= k < |files| ==> names[k] == files[k].filename
  {
    if files == [] then [] else [files[0].filename] + Filenames(files[1..])
  }

  /** The checks before the document is built, and the document's fields: either the
      response that ends the request, or the input for `new Item(...)`. */
  function CreateInput(body: CreateBody, files: Option<UploadedFiles>): (r: Result<ItemInput, CreateResponse>)
    ensures r.Success? <==>
              && Truthy(body.itemName) && Truthy(body.itemType) && Truthy(body.description)
              && files.Some? && files.value.coverImage.Some? && files.value.coverImage.value != []
    ensures r.Failure? && r.error.status == 400 && r.error.message == "All fields are required" <==>
              !(Truthy(body.itemName) && Truthy(body.itemType) && Truthy(body.description))
    ensures r.Failure? && r.error.status == 400 && r.error.message == "Cover image is required" <==>
              && Truthy(body.itemName) && Truthy(body.itemType) && Truthy(body.description)
              && files.Some? && (files.value.coverImage.None? || files.value.coverImage.value == [])
    ensures r.Failure? ==> r.error.item.None?
    ensures r.Failure? && r.error.status != 400 ==> files.None? && r.error.status == 500
    ensures Truthy(body.itemName) && Truthy(body.itemType) && Truthy(body.description) && files.None? ==>
              r == Failure(CreateResponse(500, "Failed to add item", None, Some(NO_FILES_MESSAGE)))
    ensures r.Success? ==>
              && r.value.itemName == body.itemName && r.value.itemType == body.itemType
              && r.value.description == body.description
              && files.Some? && files.value.coverImage.Some? && |files.value.coverImage.value| > 0
              && r.value.coverImage == Some(files.value.coverImage.value[0].filename)
              && r.value.createdAt.None?
    ensures r.Success? ==>
              var additional := files.value.additionalImages;
              && |r.value.additionalImages| == (if additional.Some? then |additional.value| else 0)
              && forall k :: 0 <= k < |r.value.additionalImages| ==>
                   r.value.additionalImages[k] == additional.value[k].filename
  {
    if !Truthy(body.itemName) || !Truthy(body.itemType) || !Truthy(body.description) then
      Failure(CreateResponse(400, "All fields are required", None, None))
    else if files.None? then
      Failure(CreateResponse(500, "Failed to add item", None, Some(NO_FILES_MESSAGE)))
    else if files.value.coverImage.None? || files.value.coverImage.value == [] then
      Failure(CreateResponse(400, "Cover image is required", None, None))
    else
      var additional := files.value.additionalImages;
      Success(ItemInput(body.itemName, body.itemType, body.description,
                        Some(files.value.coverImage.value[0].filename),
                        if additional.Some? then Filenames(additional.value) else [],
                        None))
  }

  /** A creation request the route turns into a stored document: every text field given,
      a name that is not all white space, one of the schema's types, and a cover file
      stored under a non-empty name. */
  predicate AcceptableRequest(body: CreateBody, files: Option<UploadedFiles>) {
    && Truthy(body.itemName) && !AllWhitespace(body.itemName.value)
    && Truthy(body.itemType) && IsItemType(body.itemType.value)
    && Truthy(body.description)
    && files.Some? && files.value.coverImage.Some? && files.value.coverImage.value != []
    && files.value.coverImage.value[0].filename != ""
  }

  /** The route's own checks and the schema's validation together accept exactly the
      acceptable requests. */
  lemma CreateAcceptedIff(body: CreateBody, files: Option<UploadedFiles>, id: string, now: int)
    ensures CreateInput(body, files).Success? && Create(CreateInput(body, files).value, id, now).Success?
            <==> AcceptableRequest(body, files)
  {
    if Truthy(body.itemName) {
      TrimEmptyIff(body.itemName.value);
    }
  }

  /** The creation handler: checks, then `save` with identifier `id` at time `now`;
      `writeError` is the failure the database reports, if any. */
  method HandleCreate(store: Store, body: CreateBody, files: Option<UploadedFiles>, id: string, now: int,
                      writeError: Option<string>) returns (resp: CreateResponse)
    requires store.Valid()
    modifies store
    ensures store.Valid()
    ensures CreateInput(body, files).Failure? ==>
              resp == CreateInput(body, files).error && store.items == old(store.items)
    ensures CreateInput(body, files).Success? && Create(CreateInput(body, files).value, id, now).Failure? ==>
              resp.status == 500 && resp.message == "Failed to add item" && store.items == old(store.items)
    ensures CreateInput(body, files).Success? && resp.status != 201 ==>
              resp.status == 500 && resp.message == "Failed to add item" && resp.item.None? && resp.error.Some?
    ensures CreateInput(body, files).Success? && Create(CreateInput(body, files).value, id, now).Failure? ==>
              resp.error == Some(SaveErrorMessage(ValidationFailed(Violations(CreateInput(body, files).value))))
    ensures (CreateInput(body, files).Success? && Create(CreateInput(body, files).value, id, now).Success?
             && writeError.Some?) ==> resp.error == writeError
    ensures (CreateInput(body, files).Success? && Create(CreateInput(body, files).value, id, now).Success?
             && writeError.None? && old(store.FindById(id)).Some?) ==>
              resp.error == Some(SaveErrorMessage(DuplicateKey))
    ensures resp.status == 201 ==> resp.message == "Item added successfully" && resp.error.None?
    ensures resp.status == 201 <==>
              && CreateInput(body, files).Success? && Create(CreateInput(body, files).value, id, now).Success?
              && writeError.None? && old(store.FindById(id)).None?
    ensures resp.status == 201 <==>
              AcceptableRequest(body, files) && writeError.None? && old(store.FindById(id)).None?
    ensures resp.status == 201 ==>
              && resp.item == Some(Create(CreateInput(body, files).value, id, now).value)
              && store.items == old(store.items) + [resp.item.value]
              && store.FindById(id) == resp.item
    ensures resp.status != 201 ==> store.items == old(store.items)
  {
    CreateAcceptedIff(body, files, id, now);
    var input := CreateInput(body, files);
    if input.Failure? {
      return input.error;
    }
    var saved := store.Save(input.value, id, now, writeError);
    match saved
    case Success(item) =>
      resp := CreateResponse(201, "Item added successfully", Some(item), None);
    case Failure(e) =>
      resp := CreateResponse(500, "Failed to add item", None, Some(SaveErrorMessage(e)));
  }
}
