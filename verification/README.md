# ItemVault, modelled in Dafny

ItemVault is a small inventory web application. A React front end lists items,
shows one item with its image gallery, and offers a form for adding items. An
Express back end stores items in MongoDB through a mongoose schema, accepts image
uploads, and mails an enquiry about an item to an address the user gives.

This project models the deterministic core of both halves:

- the item schema as a validity predicate, plus the document constructor (name
  trimming, default creation time, update stamp): `ItemModel`;
- the store as seen by the routes, with `save`, `findById` and `find`: `ItemStore`;
- the enquiry mail composer: `EmailService`;
- the route handlers for `POST /enquiry`, `GET /`, `GET /:id` and `POST /`: `ItemRoutes`;
- the list page's derivation of the displayed list: `ViewItems`;
- the add-item form: `AddItem`;
- the item details page: `ItemDetails`.

Shared pieces are the JavaScript string operations the code relies on (`trim`,
ASCII `toLowerCase`, `includes`), in `Text`, and the `Option`/`Result` types,
in `Wrappers`.

The outside world is passed in as parameters:

- the store's answer to a lookup (`Found`, `NotFound`, or `Threw` with a message);
- the error a database write reports, if any;
- the identifier and time a new document gets;
- the mail transport, as a function that says whether it accepted a message;
- the names the upload middleware gives stored files;
- the replies the pages receive.

The pages' component state is modelled as classes whose methods are the state
setters and event handlers. The list page sorts in place on an array, as
`Array.prototype.sort` does. That sort is proved equal to a stable insertion sort
(`SortBy`), which is then proved sorted, a permutation, and stable: items that tie
under the sort key keep their input order (`SortByStable`).

Where the code's answers differ from what its status codes would suggest, the model follows the code:

- A create request whose name is only whitespace, or whose type is not one of the
  five, passes the route's own check. It then fails validation in `save`, so the
  answer is 500 "Failed to add item", not 400 (`ItemRoutes.HandleCreate`).
- `GET /:id` with a malformed identifier makes the lookup throw, so the answer is
  500 "Error fetching item", not 404 (`ItemRoutes.HandleGetById`).
- A 2xx reply to the details page's fetch whose body is `null` stores it as the item
  and then throws on reading its cover, so the page shows its fetch error
  (`ItemDetails.ItemDetailsPage.OnFetched`). The route never sends such a reply.
- A create request that is not multipart has no `req.files`. Reading its
  `coverImage` throws a `TypeError`, so the answer is 500 "Failed to add item" with
  that error's message (`ItemRoutes.CreateInput`).

## Model

| member | source | states |
|---|---|---|
| ItemModel.IsItemType | backend/models/Item.js:12 | the schema's type enumeration: Shirt, Pant, Shoes, Sports Gear or Other (no ensures; characterised by `ItemTypesEnumerated`) |
| ItemModel.ItemTypesEnumerated | backend/models/Item.js:9-13 | a type is accepted exactly when it is one of Shirt, Pant, Shoes, Sports Gear, Other |
| ItemModel.ValidItem | backend/models/Item.js:3-24 | defines what a stored document satisfies: a non-empty trimmed name, one of the five types, a non-empty description and cover (no ensures; established by `CreateValid` and kept by `ItemStore.Store.Save`) |
| ItemModel.CastName | backend/models/Item.js:4-8 | the name as the `trim` setter leaves it; an absent name stays absent (no ensures; used by `Fails`) |
| ItemModel.Fails | backend/models/Item.js:3-21 | the validator of each path: `required` on the name after trimming, on the description and on the cover, and `required` plus the enumeration on the type (no ensures; `Violations` states it per path) |
| ItemModel.Violations | backend/models/Item.js:3-24 | a path fails validation exactly when its required value is missing or empty (the name after trimming), or the type is outside the enumeration |
| ItemModel.Create | backend/models/Item.js:3-31 | a document is built exactly when no path fails; otherwise the failure lists every failing path; the document keeps the given identifier |
| ItemModel.CreateValid | backend/models/Item.js:3-31 | every built document satisfies the item invariant; it stores the name trimmed and the other fields as given; createdAt defaults to the creation time; a new document's updatedAt equals its createdAt |
| ItemModel.BlankNameRejected | backend/models/Item.js:4-8 | a missing name, or one that is all whitespace, fails validation on the name path |
| ItemModel.RecreateValid | backend/models/Item.js:3-31 | casting is idempotent: a valid item handed back to the constructor is rebuilt unchanged except that updatedAt becomes its createdAt, whatever the clock says |
| Text.Truthy | backend/routes/itemRoutes.js:115 | JavaScript truthiness of an optional string: present and non-empty, as in the `!itemName` and `!email` tests and the recipient fallback (no ensures) |
| Text.IsWhitespace | backend/models/Item.js:7 | the ECMAScript white-space and line-terminator characters, which `trim` removes and `\s` names (no ensures) |
| Text.TrimStart | backend/models/Item.js:7 | the result is a suffix of the input; the dropped prefix is all whitespace; the result does not start with whitespace |
| Text.TrimEnd | backend/models/Item.js:7 | the result is a prefix of the input; the dropped suffix is all whitespace; the result does not end with whitespace |
| Text.Trim | backend/models/Item.js:7 | `String.prototype.trim`: drops leading, then trailing whitespace (no ensures; its properties are `TrimIsSlice`, `TrimEnds`, `TrimIdempotent` and `TrimEmptyIff`) |
| Text.TrimIsSlice | backend/models/Item.js:7 | the trimmed name is a contiguous slice of the input; only whitespace is removed on either side |
| Text.TrimEnds | backend/models/Item.js:7 | a trimmed name is empty or neither starts nor ends with whitespace |
| Text.TrimIdempotent | backend/models/Item.js:7 | trimming twice is trimming once |
| Text.TrimEmptyIff | backend/models/Item.js:4-8 | the trimmed name is empty exactly when the input is all whitespace |
| Text.LowerChar | frontend/src/pages/ViewItems.jsx:62-63 | upper-case ASCII letters map to lower case; every other character is kept |
| Text.Lower | frontend/src/pages/ViewItems.jsx:62-63 | lower-casing keeps the length and maps each character |
| Text.Contains | frontend/src/pages/ViewItems.jsx:62-63 | `includes`: the needle occurs at some position of the string (no ensures; its properties are `ContainsEmpty` and `ContainsInfix`) |
| Text.ContainsEmpty | frontend/src/pages/ViewItems.jsx:60-65 | every string contains the empty string |
| Text.ContainsInfix | backend/services/emailService.js:36-61 | a string contains anything spliced into it |
| ItemStore.FindIn | backend/routes/itemRoutes.js:85 | the lookup finds a stored document with the asked identifier, or nothing exactly when no document has that identifier |
| ItemStore.FindInAppended | backend/routes/itemRoutes.js:132 | after appending a document under a fresh identifier, a lookup of that identifier finds it; lookups of other identifiers are unchanged |
| ItemStore.Store.constructor | backend/models/Item.js:33 | the collection starts empty and satisfies the store invariant |
| ItemStore.Store.FindById | backend/routes/itemRoutes.js:85 | finds a stored document with the asked identifier, or nothing exactly when none has it |
| ItemStore.Store.All | backend/routes/itemRoutes.js:75 | every stored document, each valid and with distinct identifiers; an identifier is found exactly when some listed document has it, and a found document is listed; the list is the stored collection itself, so documents come in the order they were saved |
| ItemStore.Store.Save | backend/routes/itemRoutes.js:125-132 | checks run in order (validation, then the write error, then a duplicate identifier); on success the document is appended and found by its identifier, and every other lookup is unchanged; on failure the store is unchanged; the store invariant is kept |
| ItemStore.SaveErrorMessage | backend/routes/itemRoutes.js:134-136 | the message of the error `save` throws: a fixed validation prefix, the duplicate-key code, or the database's reason (no ensures; shortened, see Left out) |
| EmailService.Render | backend/services/emailService.js:35-61 | a template literal's rendering of an optional value: the value itself, or "undefined" when it is absent |
| EmailService.Fill | backend/services/emailService.js:36-61 | a body made of the fixed fragments with the name, type and description between them (no ensures; `FillMentions` states what it contains) |
| EmailService.Recipient | backend/services/emailService.js:34 | the recipient is the given address if non-empty, else ADMIN_EMAIL if set, else admin@itemmanagement.com; never empty |
| EmailService.ComposeMail | backend/services/emailService.js:25-62 | a message exists exactly when details are present with a non-empty itemName; its sender is EMAIL_USER, its recipient follows the fallback, and its subject is "New Enquiry for Item: " followed by the name |
| EmailService.FillMentions | backend/services/emailService.js:36-61 | a body filled with name, type and description contains each of them |
| EmailService.MailMentionsItem | backend/services/emailService.js:36-61 | both the HTML and the text body contain the item name, type and description |
| EmailService.SendEnquiryEmail | backend/services/emailService.js:22-77 | the result is true exactly when the guard passes and the transport accepts the composed message; every other outcome is false, so the service never fails outright |
| ItemRoutes.MatchesEmailPattern | backend/routes/itemRoutes.js:27 | defines a match of the e-mail pattern as a choice of "@" and "." splitting the string into three non-empty runs without "@" or whitespace (no ensures; characterised by `EmailPatternCharacterwise`) |
| ItemRoutes.ValidEmail | backend/routes/itemRoutes.js:27 | defines the accepted email: present, non-empty and matching the pattern (no ensures; used by `HandleEnquiry`) |
| ItemRoutes.DetailsOf | backend/routes/itemRoutes.js:45 | reads a stored item as the mailer reads it: its name, type and description (no ensures; used by `HandleEnquiry`) |
| ItemRoutes.IndexOf | backend/routes/itemRoutes.js:27 | returns the first occurrence of the character, or -1 when there is none |
| ItemRoutes.CountCharConcat | backend/routes/itemRoutes.js:27 | counting a character distributes over concatenation |
| ItemRoutes.CountCharZero | backend/routes/itemRoutes.js:27 | a count of zero means the character does not occur |
| ItemRoutes.EmailPatternCharacterwise | backend/routes/itemRoutes.js:27 | an email matches the pattern exactly when: it has one '@'; it has no whitespace; the part before the '@' is non-empty; the part after it has a '.' that is neither its first nor its last character |
| ItemRoutes.MatchHasShape | backend/routes/itemRoutes.js:27 | every way of matching the pattern gives the characterwise shape |
| ItemRoutes.ShapeMatches | backend/routes/itemRoutes.js:27 | every string of that shape matches the pattern |
| ItemRoutes.NotAnEmailRejected | backend/routes/itemRoutes.js:27-32 | a string without "@" ("not-an-email") fails the pattern |
| ItemRoutes.PlainAddressAccepted | backend/routes/itemRoutes.js:27-32 | "buyer@shop.com" matches the pattern |
| ItemRoutes.HandleEnquiry | backend/routes/itemRoutes.js:16-70 | status is 200, 400, 404 or 500; success holds exactly at 200; a missing item id gives 400 before the email check, and a bad email gives 400 before any lookup; not found gives 404 "Item not found" and no mail; the mailer gets the caller's details when given, else the stored item; 200 exactly when the mail is sent; a thrown lookup gives 500 "Internal server error. Please try again later.", whose error field is the message only in development and null otherwise; a mail that is not sent gives 500 "Failed to send enquiry. Please try again later."; 200 carries "Enquiry sent successfully" |
| ItemRoutes.EnquiryMailAddressed | backend/routes/itemRoutes.js:45-51 | after a 200 answer, a message addressed to the caller with the item's subject was accepted by the transport |
| ItemRoutes.HandleGetById | backend/routes/itemRoutes.js:83-93 | 200 with the item exactly when found; 404 "Item not found" with no error field exactly when not found; a thrown lookup (a malformed identifier included) gives 500 "Error fetching item" with the error message |
| ItemRoutes.HandleList | backend/routes/itemRoutes.js:73-80 | 200 with every stored item when the query succeeds; otherwise 500 "Error fetching items" with the error message |
| ItemRoutes.ListAnswersStore | backend/routes/itemRoutes.js:73-80 | when the query reads the store, the answer is 200 with only valid documents and with every document a lookup can find |
| ItemRoutes.Filenames | backend/routes/itemRoutes.js:122-124 | maps each uploaded file to its stored filename, in upload order |
| ItemRoutes.CreateInput | backend/routes/itemRoutes.js:113-131 | the checks pass exactly when name, type and description are all non-empty and a non-empty cover list was uploaded; 400 "All fields are required" exactly when a text field is missing or empty; with the fields present, no `req.files` gives 500 "Failed to add item" with the TypeError's message, and a missing or empty cover gives 400 "Cover image is required"; on success the input has the given text fields, the first cover file's name and the additional file names in upload order (empty when there are none) |
| ItemRoutes.AcceptableRequest | backend/routes/itemRoutes.js:113-131 | a request with every text field, a name that is not all whitespace, one of the five types and a cover stored under a non-empty name (no ensures; `CreateAcceptedIff` ties it to the route and the schema) |
| ItemRoutes.CreateAcceptedIff | backend/routes/itemRoutes.js:113-131 | the route's checks and the schema together accept exactly the requests with every text field, a name that is not all whitespace, one of the five types and a cover stored under a non-empty name |
| ItemRoutes.HandleCreate | backend/routes/itemRoutes.js:113-138 | 201 exactly when the checks pass, the document validates, and the write succeeds under a fresh identifier, that is, exactly for an acceptable request with a clean write and a fresh identifier; the answer then carries "Item added successfully" and the stored document, which the store now finds; a request that passes the checks but is not stored gets 500 "Failed to add item" with no item and an error message: the validation message when validation fails, the database's message when the write fails, the duplicate-key message when the identifier is taken; any answer other than 201 leaves the store unchanged |
| ViewItems.FilterTypesMatchSchema | frontend/src/pages/ViewItems.jsx:8-14 | the filter buttons list exactly the schema's five types |
| ViewItems.ParseSortOption | frontend/src/pages/ViewItems.jsx:68-81 | "newest", "oldest", "nameAsc" and "nameDesc" each select their own key, and any other value selects no sort |
| ViewItems.SortMenuParses | frontend/src/pages/ViewItems.jsx:16-21 | a sort option selects a sort exactly when it is one of the values the sort menu offers |
| ViewItems.NameCompare | frontend/src/pages/ViewItems.jsx:76-79 | the name comparison is three-way and returns zero exactly on equal names |
| ViewItems.NameCompareAntisymmetric | frontend/src/pages/ViewItems.jsx:76-79 | swapping the names negates the comparison |
| ViewItems.NameCompareTransitive | frontend/src/pages/ViewItems.jsx:76-79 | the name order is transitive |
| ViewItems.Compare | frontend/src/pages/ViewItems.jsx:68-81 | defines the four comparators: creation time descending and ascending, name and reversed name (no ensures; its properties are `CompareAntisymmetric` and `LeTransitive`) |
| ViewItems.CompareAntisymmetric | frontend/src/pages/ViewItems.jsx:68-81 | each of the four comparators is antisymmetric |
| ViewItems.LeTransitive | frontend/src/pages/ViewItems.jsx:68-81 | each of the four comparators gives a transitive order |
| ViewItems.InsertLast | frontend/src/pages/ViewItems.jsx:68-81 | inserts an item after the last element that may precede it, adding one element (its placement is `InsertLastAt`, its content `InsertLastPermutes`) |
| ViewItems.SortBy | frontend/src/pages/ViewItems.jsx:68-81 | the reference stable sort keeps the length (sorted by `SortBySorted`, a permutation by `SortByPermutes`, stable by `SortByStable`) |
| ViewItems.InsertLastPermutes | frontend/src/pages/ViewItems.jsx:68-81 | inserting adds exactly the inserted item |
| ViewItems.SortByPermutes | frontend/src/pages/ViewItems.jsx:68-81 | the reference sort is a permutation of its input |
| ViewItems.InsertLastSorted | frontend/src/pages/ViewItems.jsx:68-81 | inserting into a sorted list keeps it sorted |
| ViewItems.InsertLastBounded | frontend/src/pages/ViewItems.jsx:68-81 | inserting an item that may precede a bound into a list whose elements all may precede it keeps that so |
| ViewItems.SortBySorted | frontend/src/pages/ViewItems.jsx:68-81 | the reference sort's output is ordered by the comparator |
| ViewItems.CompareTie | frontend/src/pages/ViewItems.jsx:68-81 | an item tied with a pivot compares with every other item with the same sign as the pivot does, proved from antisymmetry and transitivity alone |
| ViewItems.InsertLastTies | frontend/src/pages/ViewItems.jsx:68-81 | inserting an item keeps the order of the items tied with any pivot and puts the new one last among them |
| ViewItems.SortByStable | frontend/src/pages/ViewItems.jsx:68-81 | the reference sort is stable: for every pivot, the items that tie with it come out in their input order |
| ViewItems.InsertLastAt | frontend/src/pages/ViewItems.jsx:68-81 | an item goes after the last element that may precede it and before the run of elements that must follow it |
| ViewItems.SortByStep | frontend/src/pages/ViewItems.jsx:68-81 | sorting one more element is inserting it into the sorted prefix |
| ViewItems.InsertionPoint | frontend/src/pages/ViewItems.jsx:68-81 | the scan stops after the last prefix element that may precede the item, and every element it passed must follow the item |
| ViewItems.ShiftRight | frontend/src/pages/ViewItems.jsx:68-81 | the elements between the insertion point and the item move one place right and nothing else changes |
| ViewItems.InsertIntoPrefix | frontend/src/pages/ViewItems.jsx:68-81 | shifting one element left into the sorted prefix performs the reference insertion; the rest of the array is untouched |
| ViewItems.SortInPlace | frontend/src/pages/ViewItems.jsx:70-79 | sorting the array in place leaves it equal to the stable reference sort of its old contents |
| ViewItems.FilterByType | frontend/src/pages/ViewItems.jsx:55-57 | the type filter is never longer than its input (what it keeps is `FilterByTypeKeeps` and `FilterByTypeCounts`, in what order `FilterByTypeConcat`) |
| ViewItems.FilterByTypeConcat | frontend/src/pages/ViewItems.jsx:55-57 | filtering a concatenation concatenates the filtered parts, so the kept items stay in input order |
| ViewItems.FilterByTypeOne | frontend/src/pages/ViewItems.jsx:55-57 | a lone item is kept exactly when it has the type |
| ViewItems.FilterByTypeCounts | frontend/src/pages/ViewItems.jsx:55-57 | every occurrence of an item of the type is kept and no other item is |
| ViewItems.FilterByTypeKeeps | frontend/src/pages/ViewItems.jsx:55-57 | keeps exactly the items of the given type, as a sub-multiset of the input |
| ViewItems.MatchesQuery | frontend/src/pages/ViewItems.jsx:61-64 | the lower-cased name or the lower-cased description includes the lower-cased query (no ensures; used by the search filter lemmas) |
| ViewItems.FilterBySearch | frontend/src/pages/ViewItems.jsx:60-65 | the search filter is never longer than its input (what it keeps is `FilterBySearchKeeps` and `FilterBySearchCounts`, in what order `FilterBySearchConcat`) |
| ViewItems.FilterBySearchConcat | frontend/src/pages/ViewItems.jsx:60-65 | searching a concatenation concatenates the searched parts, so the kept items stay in input order |
| ViewItems.FilterBySearchOne | frontend/src/pages/ViewItems.jsx:60-65 | a lone item is kept exactly when it matches the query |
| ViewItems.FilterBySearchCounts | frontend/src/pages/ViewItems.jsx:60-65 | every occurrence of a matching item is kept and no other item is |
| ViewItems.FilterBySearchKeeps | frontend/src/pages/ViewItems.jsx:60-65 | keeps exactly the items whose lower-cased name or description contains the lower-cased query, as a sub-multiset of the input |
| ViewItems.EmptySearchKeepsAll | frontend/src/pages/ViewItems.jsx:60-65 | searching for the empty string keeps every item in order |
| ViewItems.Filtered | frontend/src/pages/ViewItems.jsx:52-65 | applies the type filter unless it is "All", then the search unless the query is empty (no ensures; its properties are `FilteredKeeps` and the filter lemmas) |
| ViewItems.FilteredKeeps | frontend/src/pages/ViewItems.jsx:52-65 | the two filters keep only fetched items, and keep an item exactly when it has the chosen type (any under "All") and matches the query (any item for an empty query) |
| ViewItems.Derived | frontend/src/pages/ViewItems.jsx:51-84 | sorts the filtered list when the option names a key and leaves it as it is otherwise (no ensures; its properties are the `Derived...` lemmas) |
| ViewItems.DerivedPermutesFiltered | frontend/src/pages/ViewItems.jsx:67-83 | sorting only reorders the filtered list |
| ViewItems.DerivedIsSubMultiset | frontend/src/pages/ViewItems.jsx:51-84 | the displayed list is a rearrangement of a sub-multiset of the fetched list and never longer |
| ViewItems.DerivedMembership | frontend/src/pages/ViewItems.jsx:51-84 | an item is displayed exactly when it was fetched, has the chosen type (any type under "All") and matches the search (any item for an empty search) |
| ViewItems.AbsentTypeShowsNothing | frontend/src/pages/ViewItems.jsx:55-57 | filtering by a type no fetched item has shows the empty list |
| ViewItems.SortOptionKeepsSelection | frontend/src/pages/ViewItems.jsx:54-81 | which items are shown, and how often, does not depend on the sort option |
| ViewItems.DerivedByCreationTime | frontend/src/pages/ViewItems.jsx:69-74 | "newest" gives non-increasing creation times and "oldest" non-decreasing ones |
| ViewItems.DerivedByName | frontend/src/pages/ViewItems.jsx:75-80 | "nameAsc" orders names by the name comparison and "nameDesc" by its reverse |
| ViewItems.UnknownSortKeepsOrder | frontend/src/pages/ViewItems.jsx:68-81 | a sort option the switch does not name leaves the filtered order as it is |
| ViewItems.ViewItemsPage.constructor | frontend/src/pages/ViewItems.jsx:24-29 | the page starts with no items, loading, no error, filter "All", sort "newest" and an empty search |
| ViewItems.ViewItemsPage.OnFetched | frontend/src/pages/ViewItems.jsx:35-36 | the fetched list replaces the items and loading ends; the controls are unchanged |
| ViewItems.ViewItemsPage.OnFetchFailed | frontend/src/pages/ViewItems.jsx:43-44 | the error is "Failed to fetch items: " followed by the server's message when it sent one, else the client error's message; loading ends |
| ViewItems.ViewItemsPage.SetFilter | frontend/src/pages/ViewItems.jsx:124-140 | sets the filter and nothing else |
| ViewItems.ViewItemsPage.SetSortOption | frontend/src/pages/ViewItems.jsx:158 | sets the sort option and nothing else |
| ViewItems.ViewItemsPage.SetSearchQuery | frontend/src/pages/ViewItems.jsx:116 | sets the search text and nothing else |
| ViewItems.ViewItemsPage.FilteredAndSortedItems | frontend/src/pages/ViewItems.jsx:51-84 | the copy, filtered and sorted in place, is the displayed list defined by `Derived`; the page state, the fetched list included, is not modified |
| AddItem.FormTypesMatchSchema | frontend/src/pages/AddItem.jsx:8-10 | the form's type choices are exactly the schema's five types |
| AddItem.KeepExcept | frontend/src/pages/AddItem.jsx:50-54 | the index filter, element by element (no ensures; characterised by `KeepExceptRemoves`) |
| AddItem.KeepExceptRemoves | frontend/src/pages/AddItem.jsx:50-54 | the index filter drops exactly the element at the index and keeps the order of the rest; an index outside the list drops nothing |
| AddItem.FormFields | frontend/src/pages/AddItem.jsx:99-112 | the form data: the three text fields, the cover, then one entry per additional image (no ensures; read back by `FormFieldsRoundTrip`) |
| AddItem.ImageEntries | frontend/src/pages/AddItem.jsx:110-112 | one additionalImages entry per image, in list order (its properties are `ImageEntriesNamed` and `ImageEntriesRead`) |
| AddItem.FirstText | backend/routes/itemRoutes.js:114 | the first text value posted under a field name, as the body parser reads a field that occurs once (no ensures; `FormFieldsRoundTrip` reads the form back with it) |
| AddItem.FilesUnder | backend/routes/itemRoutes.js:109-112 | the files posted under a field name, in order (no ensures; its properties are `FilesUnderConcat` and `FilesUnderTexts`) |
| AddItem.ImageEntriesNamed | frontend/src/pages/AddItem.jsx:110-112 | every image entry is named additionalImages |
| AddItem.ImageEntriesRead | frontend/src/pages/AddItem.jsx:110-112 | reading the image entries back under additionalImages gives the images in list order, and under any other name gives nothing |
| AddItem.FormFieldsRoundTrip | frontend/src/pages/AddItem.jsx:99-112 | reading the posted form back gives each text field, the cover under coverImage, and the additional images in order under additionalImages |
| AddItem.Stored | backend/routes/itemRoutes.js:97-104 | each received file recorded with its client name and the name it was stored under, in order |
| AddItem.FileField | backend/routes/itemRoutes.js:109-112 | a file field of `req.files` is absent exactly when no file came under its name; otherwise it lists each file's client name and stored name, in order |
| AddItem.Received | backend/routes/itemRoutes.js:109-114 | what the upload middleware hands the route for a posted form: the first text value under each field name and the stored files under each file field (no ensures; used by `PostedFormPassesRoute`) |
| AddItem.PostedFormPassesRoute | frontend/src/pages/AddItem.jsx:85-112 | a form the page posts passes every check of the creation route, and the document gets the typed fields, the stored cover and the additional images in list order |
| AddItem.PostFailureToast | frontend/src/pages/AddItem.jsx:125-129 | a failed post shows the server's message when it is non-empty, else "Failed to add item" |
| AddItem.AddItemForm.constructor | frontend/src/pages/AddItem.jsx:13-17 | the form starts with empty text fields, no cover and no additional images |
| AddItem.AddItemForm.SetItemName | frontend/src/pages/AddItem.jsx:142 | sets the name and nothing else |
| AddItem.AddItemForm.SetItemType | frontend/src/pages/AddItem.jsx:153 | sets the type and nothing else |
| AddItem.AddItemForm.SetDescription | frontend/src/pages/AddItem.jsx:168 | sets the description and nothing else |
| AddItem.AddItemForm.OnDropCoverImage | frontend/src/pages/AddItem.jsx:20-32 | a drop sets the cover to the first accepted file; an empty drop leaves it unchanged |
| AddItem.AddItemForm.OnDropAdditionalImages | frontend/src/pages/AddItem.jsx:34-44 | dropped images are appended after the existing ones, in drop order; existing entries are unchanged |
| AddItem.AddItemForm.RemoveCoverImage | frontend/src/pages/AddItem.jsx:46-48 | clears the cover and nothing else |
| AddItem.AddItemForm.RemoveAdditionalImage | frontend/src/pages/AddItem.jsx:50-54 | removes exactly the image at the index and keeps the order of the rest; an out-of-range index changes nothing |
| AddItem.AddItemForm.HandleSubmit | frontend/src/pages/AddItem.jsx:85-112 | an empty name, type or description stops with "Please fill in all required fields", checked first; then a missing cover stops with "Please upload a cover image"; otherwise the form is posted with itemName, itemType, description, coverImage, then one additionalImages entry per image in list order |
| ItemDetails.UploadPath | frontend/src/pages/ItemDetails.jsx:31 | an image is served from "/uploads/" followed by its name |
| ItemDetails.IsHighlighted | frontend/src/pages/ItemDetails.jsx:109-115 | a thumbnail is highlighted when the selected path is that image's path (no ensures; `SelectImage` states which thumbnails it holds for) |
| ItemDetails.UploadPathInjective | frontend/src/pages/ItemDetails.jsx:109-112 | two images have the same served path exactly when they are the same image |
| ItemDetails.Gallery | frontend/src/pages/ItemDetails.jsx:83 | the gallery has one entry more than the additional images |
| ItemDetails.GalleryOrder | frontend/src/pages/ItemDetails.jsx:83 | the gallery is the cover followed by the additional images in order, and holds no other image |
| ItemDetails.Settle | frontend/src/pages/ItemDetails.jsx:51-70 | loading ends; success holds exactly for a 2xx reply whose body says success, and then there is no error; otherwise the error is the server's non-empty message, or "Failed to send enquiry" when there is none; a 2xx reply without success always shows "Failed to send enquiry" |
| ItemDetails.ReplyOf | frontend/src/pages/ItemDetails.jsx:44-70 | how the HTTP client hands a route answer to the page: a 2xx reply with its body, otherwise an error reply (no ensures; used by `EnquiryShownAsHandled`) |
| ItemDetails.EnquiryShownAsHandled | frontend/src/pages/ItemDetails.jsx:42-71 | combined with the enquiry route, the page shows success exactly when the route answered 200, which is exactly when the mail was sent; otherwise it shows the route's own message |
| ItemDetails.Consistent | frontend/src/pages/ItemDetails.jsx:183-192 | the success banner and the error banner are never shown together, and a shown error is not empty (no ensures; the invariant `ItemDetailsPage.Valid` that every state-changing method keeps) |
| ItemDetails.ItemDetailsPage.constructor | frontend/src/pages/ItemDetails.jsx:14-24 | the page starts loading, with no item, no error, no selection, an idle enquiry and an empty email |
| ItemDetails.ItemDetailsPage.Render | frontend/src/pages/ItemDetails.jsx:74-81 | the spinner shows exactly while loading; the error view shows exactly when loading has ended and an error is set; "no item" shows exactly when neither holds and there is no item; the item view shows exactly when neither holds and there is an item, and it shows that item |
| ItemDetails.ItemDetailsPage.OnFetchSuccess | frontend/src/pages/ItemDetails.jsx:30-32 | the item is set, loading ends, and the selected image is "/uploads/" followed by the cover, which is highlighted |
| ItemDetails.ItemDetailsPage.OnFetchFailure | frontend/src/pages/ItemDetails.jsx:33-35 | the error "Failed to fetch item details" is set and shown, and loading ends |
| ItemDetails.ItemDetailsPage.OnFetched | frontend/src/pages/ItemDetails.jsx:28-36 | a 2xx reply with an item shows that item with its cover selected; an error reply shows the fetch error and keeps the item and selection; a 2xx reply without an item clears the item and shows the fetch error; the enquiry status and the email are unchanged |
| ItemDetails.ItemDetailsPage.SelectImage | frontend/src/pages/ItemDetails.jsx:106-112 | a click selects "/uploads/" followed by the image, and a thumbnail is highlighted exactly when it shows that image |
| ItemDetails.ItemDetailsPage.EnquireDisabled | frontend/src/pages/ItemDetails.jsx:163 | the button is disabled while an enquiry is loading or the email is empty (no ensures) |
| ItemDetails.ItemDetailsPage.SetUserEmail | frontend/src/pages/ItemDetails.jsx:157-163 | sets the email; the button is then disabled exactly while an enquiry is loading or the email is empty |
| ItemDetails.ItemDetailsPage.BeginEnquiry | frontend/src/pages/ItemDetails.jsx:43-49 | the status becomes loading with no success and no error, which disables the button; the request carries the page's identifier, the item's details and the typed email |
| ItemDetails.ItemDetailsPage.CompleteEnquiry | frontend/src/pages/ItemDetails.jsx:51-70 | the status becomes the settled status of the reply; success and a non-empty error are never set together |
| ItemDetails.ItemDetailsPage.OnSuccessTimeout | frontend/src/pages/ItemDetails.jsx:58-60 | the status returns to idle |

## Left out

- backend/server.js is not part of this model: CORS, static file serving, creating the upload directory, the database connection, logging, the global error handler and shutdown are process plumbing.
- frontend/src/App.jsx and frontend/src/components/Navbar.jsx are not part of this model; they hold routing and markup only.
- The upload middleware's file names come from the clock and a random number. They are a parameter (`storedName`, or the `filename` of a `StoredFile`). Its `maxCount` limits refuse a request before the handler runs; `AddItem.PostedFormPassesRoute` covers the forms within them.
- The mail transport and SMTP settings are an oracle `deliver`. The bodies keep their labels and the three interpolated fields, but not the exact markup, inline styles and indentation of the template literals.
- Mongoose is reduced to the store in `ItemStore`. `findById` and `find` are answers passed in (`Lookup`, a `Result`). Casting an identifier to an ObjectId appears only as "the lookup throws". The duplicate-identifier error stands for any write conflict.
- Axios, toasts, the one-second redirect after adding an item, the three-second success reset timer (modelled as a method called when it fires), FileReader data URLs and `URL.createObjectURL` previews, the dropzone's MIME and size filter, and the animations are left out.
- A cover drop is modelled as setting the cover at once. In the page the cover is set when the FileReader finishes, so two quick drops may finish in either order.
- ViewItems.NameCompare: stands in for `localeCompare` by comparing character codes one by one, because locale collation is outside the model. The sort proofs use only its antisymmetry and transitivity (`NameCompareAntisymmetric`, `NameCompareTransitive`); ties in the stability proof are handled by `CompareTie` from those two alone. The model's comparison is zero only on equal names, whereas a locale may tie different strings (a precomposed "é" and "e" followed by a combining accent), and its concrete order differs from a locale's.
- Text.Lower: lower-cases ASCII letters only; full Unicode case mapping is not modelled.
- Creation times are integer milliseconds; parsing dates with `new Date(...)` is not modelled.
- `console` logging in every handler is left out.
- ItemStore.SaveErrorMessage: a failed validation's message is only its prefix "Item validation failed"; mongoose appends one "path: message" per failing path, whose order and wording (the enumeration message quotes the rejected value) are not modelled. The failing paths themselves are kept in `ValidationFailed`.
- A 2xx reply to the details page's fetch whose body is empty or not an item (the page then shows "No item found" with a selected image of "/uploads/undefined") cannot be expressed as an `ItemResponse`, so it is not modelled.
