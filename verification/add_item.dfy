/**
 * The add-item form (frontend/src/pages/AddItem.jsx): the three text fields,
 * the cover image slot and the list of additional images, the drop and
 * remove operations on the images, and the submit handler, which either
 * stops with a toast or posts a multipart form whose fields come in a fixed
 * order. Image previews, the dropzone's type and size filter and the upload
 * itself are not modelled; `File` stands for a browser file object.
 */
module AddItem {
  import opened Wrappers
  import opened Text
  import ItemModel
  import ItemRoutes

  /** The choices of the type select, after its empty "Select Item Type" option. */
  const ITEM_TYPES: seq<string> := ["Shirt", "Pant", "Shoes", "Sports Gear", "Other"]

  /** The form offers exactly the types the schema accepts. */
  lemma FormTypesMatchSchema(t: string)
    ensures t in ITEM_TYPES <==> ItemModel.IsItemType(t)
  {
    ItemModel.ItemTypesEnumerated(t);
  }

  /** A file picked by the user; only its name is visible to the model. */
  datatype File = File(name: string)

  /** A `FormData` value: a string or a file. */
  datatype FormValue = TextValue(text: string) | FileValue(file: File)

  /** One `formData.append(name, value)`. */
  datatype FormEntry = FormEntry(name: string, value: FormValue)

  /** What submitting does: show an error toast and stop, or post the assembled form. */
  datatype SubmitOutcome = Rejected(toast: string) | Posted(fields: seq<FormEntry>)

  const FILL_FIELDS_MESSAGE: string := "Please fill in all required fields"
  const COVER_MESSAGE: string := "Please upload a cover image"
  const POST_FAILED_MESSAGE: string := "Failed to add item"

  // ----- Removing by index -----

  /** `s.filter((_, index) => index !== i)`. */
  function KeepExcept<T>(s: seq<T>, i: int): seq<T> {
    if s == [] then []
    else KeepExcept(s[..|s| - 1], i) + (if |s| - 1 == i then [] else [s[|s| - 1]])
  }

  /** The filter drops exactly the element at index `i`, keeping the order of the rest;
      an index outside the list drops nothing. */
  lemma {:induction false} KeepExceptRemoves<T>(s: seq<T>, i: int)
    ensures KeepExcept(s, i) == if 0 <= i < |s| then s[..i] + s[i + 1..] else s
  {
    if s != [] {
      var n := |s| - 1;
      var init := s[..n];
      KeepExceptRemoves(init, i);
      if i == n {
        assert s[..i] + s[i + 1..] == init;
      } else if 0 <= i < n {
        assert init[..i] == s[..i];
        assert init[i + 1..] + [s[n]] == s[i + 1..];
      } else {
        assert init + [s[n]] == s;
      }
    }
  }

  // ----- The multipart form -----

  /** One `additionalImages` entry per image, in list order. */
  function ImageEntries(images: seq<File>): (entries: seq<FormEntry>)
    ensures |entries| == |images|
  {
    if images == [] then []
    else ImageEntries(images[..|images| - 1]) + [FormEntry("additionalImages", FileValue(images[|images| - 1]))]
  }

  /** The form `handleSubmit` posts, in the order of its `append` calls. */
  function FormFields(itemName: string, itemType: string, description: string, cover: File,
                      additional: seq<File>): seq<FormEntry>
  {
    [FormEntry("itemName", TextValue(itemName)),
     FormEntry("itemType", TextValue(itemType)),
     FormEntry("description", TextValue(description)),
     FormEntry("coverImage", FileValue(cover))]
    + ImageEntries(additional)
  }

  /** The first string value appended under `name`, as the server's body parser reads a
      field that occurs once. */
  function FirstText(fields: seq<FormEntry>, name: string): Option<string> {
    if fields == [] then None
    else if fields[0].name == name && fields[0].value.TextValue? then Some(fields[0].value.text)
    else FirstText(fields[1..], name)
  }

  /** The files appended under `name`, in order. */
  function FilesUnder(fields: seq<FormEntry>, name: string): seq<File> {
    if fields == [] then []
    else (if fields[0].name == name && fields[0].value.FileValue? then [fields[0].value.file] else [])
         + FilesUnder(fields[1..], name)
  }

  lemma {:induction false} FilesUnderConcat(a: seq<FormEntry>, b: seq<FormEntry>, name: string)
    ensures FilesUnder(a + b, name) == FilesUnder(a, name) + FilesUnder(b, name)
  {
    if a == [] {
      assert a + b == b;
    } else {
      assert (a + b)[0] == a[0];
      assert (a + b)[1..] == a[1..] + b;
      FilesUnderConcat(a[1..], b, name);
    }
  }

  lemma {:induction false} FirstTextSkips(a: seq<FormEntry>, b: seq<FormEntry>, name: string)
    requires forall k :: 0 <= k < |a| ==> a[k].name != name
    ensures FirstText(a + b, name) == FirstText(b, name)
  {
    if a == [] {
      assert a + b == b;
    } else {
      assert (a + b)[0] == a[0];
      assert (a + b)[1..] == a[1..] + b;
      FirstTextSkips(a[1..], b, name);
    }
  }

  /** String entries carry no files. */
  lemma {:induction false} FilesUnderTexts(a: seq<FormEntry>, name: string)
    requires forall k :: 0 <= k < |a| ==> a[k].value.TextValue?
    ensures FilesUnder(a, name) == []
  {
    if a != [] {
      FilesUnderTexts(a[1..], name);
    }
  }

  /** The image entries are all named `additionalImages`. */
  lemma {:induction false} ImageEntriesNamed(images: seq<File>)
    ensures forall k :: 0 <= k < |ImageEntries(images)| ==> ImageEntries(images)[k].name == "additionalImages"
  {
    if images != [] {
      ImageEntriesNamed(images[..|images| - 1]);
    }
  }

  /** The image entries carry the images, in order, under `additionalImages` and nothing
      under any other name. */
  lemma {:induction false} ImageEntriesRead(images: seq<File>, name: string)
    ensures FilesUnder(ImageEntries(images), name) == if name == "additionalImages" then images else []
  {
    if images != [] {
      var init, last := images[..|images| - 1], images[|images| - 1];
      ImageEntriesRead(init, name);
      var one := [FormEntry("additionalImages", FileValue(last))];
      FilesUnderConcat(ImageEntries(init), one, name);
      assert FilesUnder(one, name) == if name == "additionalImages" then [last] else [];
      assert init + [last] == images;
    }
  }

  /** Reading the posted form back field by field gives what was put in: each text field,
      the cover under `coverImage`, and the additional images, in order, under
      `additionalImages`. */
  lemma FormFieldsRoundTrip(itemName: string, itemType: string, description: string, cover: File,
                            additional: seq<File>)
    ensures var f := FormFields(itemName, itemType, description, cover, additional);
      && FirstText(f, "itemName") == Some(itemName)
      && FirstText(f, "itemType") == Some(itemType)
      && FirstText(f, "description") == Some(description)
      && FilesUnder(f, "coverImage") == [cover]
      && FilesUnder(f, "additionalImages") == additional
  {
    var head := [FormEntry("itemName", TextValue(itemName)),
                 FormEntry("itemType", TextValue(itemType)),
                 FormEntry("description", TextValue(description)),
                 FormEntry("coverImage", FileValue(cover))];
    var tail := ImageEntries(additional);
    var f := FormFields(itemName, itemType, description, cover, additional);
    assert f == head + tail;
    FirstTextSkips(head[..2], head[2..] + tail, "description");
    assert f == head[..2] + (head[2..] + tail);
    var cov := [FormEntry("coverImage", FileValue(cover))];
    assert head == head[..3] + cov;
    assert cov[1..] == [];
    FilesUnderTexts(head[..3], "coverImage");
    FilesUnderTexts(head[..3], "additionalImages");
    FilesUnderConcat(head[..3], cov, "coverImage");
    FilesUnderConcat(head[..3], cov, "additionalImages");
    ImageEntriesRead(additional, "coverImage");
    ImageEntriesRead(additional, "additionalImages");
    FilesUnderConcat(head, tail, "coverImage");
    FilesUnderConcat(head, tail, "additionalImages");
  }

  // ----- What the server receives -----

  /** The upload middleware's record of each received file, under the name it chose. */
  function Stored(files: seq<File>, storedName: File -> string): (r: seq<ItemRoutes.StoredFile>)
    ensures |r| == |files|
    ensures forall k :: 0 <= k < |files| ==> r[k] == ItemRoutes.StoredFile(files[k].name, storedName(files[k]))
  {
    if files == [] then []
    else [ItemRoutes.StoredFile(files[0].name, storedName(files[0]))] + Stored(files[1..], storedName)
  }

  /** A file field of `req.files`: absent when no file came under that name. */
  function FileField(files: seq<File>, storedName: File -> string): (r: Option<seq<ItemRoutes.StoredFile>>)
    ensures r.None? <==> files == []
    ensures r.Some? ==> |r.value| == |files|
    ensures r.Some? ==> forall k :: 0 <= k < |files| ==>
              r.value[k] == ItemRoutes.StoredFile(files[k].name, storedName(files[k]))
  {
    if files == [] then None else Some(Stored(files, storedName))
  }

  /** `req.body` and `req.files` for a posted form. */
  function Received(fields: seq<FormEntry>, storedName: File -> string): (ItemRoutes.CreateBody, ItemRoutes.UploadedFiles) {
    (ItemRoutes.CreateBody(FirstText(fields, "itemName"), FirstText(fields, "itemType"), FirstText(fields, "description")),
     ItemRoutes.UploadedFiles(FileField(FilesUnder(fields, "coverImage"), storedName),
                              FileField(FilesUnder(fields, "additionalImages"), storedName)))
  }

  /** A form the page posts passes every check of the creation route before the document
      is built, and the document gets the typed fields, the stored cover and the stored
      additional images in the order they were listed. The upload middleware lets the form
      through only within its file limits. */
  lemma PostedFormPassesRoute(itemName: string, itemType: string, description: string, cover: File,
                              additional: seq<File>, storedName: File -> string)
    requires itemName != "" && itemType != "" && description != ""
    requires |additional| <= ItemRoutes.MAX_ADDITIONAL_IMAGES
    ensures var (body, files) := Received(FormFields(itemName, itemType, description, cover, additional), storedName);
      var r := ItemRoutes.CreateInput(body, Some(files));
      && r.Success?
      && r.value.itemName == Some(itemName)
      && r.value.itemType == Some(itemType)
      && r.value.description == Some(description)
      && r.value.coverImage == Some(storedName(cover))
      && |r.value.additionalImages| == |additional|
      && forall k :: 0 <= k < |additional| ==> r.value.additionalImages[k] == storedName(additional[k])
  {
    FormFieldsRoundTrip(itemName, itemType, description, cover, additional);
  }

  /** The error toast after a failed post: the server's message when it sent a non-empty
      one, the fallback otherwise. */
  function PostFailureToast(serverMessage: Option<string>): (toast: string)
    ensures toast != ""
    ensures serverMessage.Some? && serverMessage.value != "" ==> toast == serverMessage.value
    ensures serverMessage.None? || serverMessage.value == "" ==> toast == POST_FAILED_MESSAGE
  {
    if serverMessage.Some? && serverMessage.value != "" then serverMessage.value else POST_FAILED_MESSAGE
  }

  // ----- The page -----

  class AddItemForm {
    var itemName: string
    var itemType: string
    var description: string
    var coverImage: Option<File>
    var additionalImages: seq<File>

    constructor ()
      ensures itemName == "" && itemType == "" && description == ""
      ensures coverImage.None? && additionalImages == []
    {
      itemName, itemType, description := "", "", "";
      coverImage, additionalImages := None, [];
    }

    method SetItemName(value: string)
      modifies this
      ensures itemName == value
      ensures itemType == old(itemType) && description == old(description)
      ensures coverImage == old(coverImage) && additionalImages == old(additionalImages)
    {
      itemName := value;
    }

    method SetItemType(value: string)
      modifies this
      ensures itemType == value
      ensures itemName == old(itemName) && description == old(description)
      ensures coverImage == old(coverImage) && additionalImages == old(additionalImages)
    {
      itemType := value;
    }

    method SetDescription(value: string)
      modifies this
      ensures description == value
      ensures itemName == old(itemName) && itemType == old(itemType)
      ensures coverImage == old(coverImage) && additionalImages == old(additionalImages)
    {
      description := value;
    }

    /** A cover drop keeps the first accepted file; a drop with no accepted file changes nothing. */
    method OnDropCoverImage(accepted: seq<File>)
      modifies this
      ensures |accepted| > 0 ==> coverImage == Some(accepted[0])
      ensures |accepted| == 0 ==> coverImage == old(coverImage)
      ensures itemName == old(itemName) && itemType == old(itemType) && description == old(description)
      ensures additionalImages == old(additionalImages)
    {
      if |accepted| > 0 {
        coverImage := Some(accepted[0]);
      }
    }

    /** Dropped images go after the ones already listed, in drop order. */
    method OnDropAdditionalImages(accepted: seq<File>)
      modifies this
      ensures additionalImages == old(additionalImages) + accepted
      ensures additionalImages[..|old(additionalImages)|] == old(additionalImages)
      ensures itemName == old(itemName) && itemType == old(itemType) && description == old(description)
      ensures coverImage == old(coverImage)
    {
      additionalImages := additionalImages + accepted;
    }

    method RemoveCoverImage()
      modifies this
      ensures coverImage.None?
      ensures itemName == old(itemName) && itemType == old(itemType) && description == old(description)
      ensures additionalImages == old(additionalImages)
    {
      coverImage := None;
    }

    /** Removes the image at `index`, keeping the order of the others; an index outside the
        list leaves it as it is. */
    method RemoveAdditionalImage(index: int)
      modifies this
      ensures 0 <= index < |old(additionalImages)| ==>
                additionalImages == old(additionalImages)[..index] + old(additionalImages)[index + 1..]
      ensures !(0 <= index < |old(additionalImages)|) ==> additionalImages == old(additionalImages)
      ensures itemName == old(itemName) && itemType == old(itemType) && description == old(description)
      ensures coverImage == old(coverImage)
    {
      KeepExceptRemoves(additionalImages, index);
      additionalImages := KeepExcept(additionalImages, index);
    }

    /** `handleSubmit`: the required-field check, then the cover check, then the form. */
    method HandleSubmit() returns (r: SubmitOutcome)
      ensures itemName == "" || itemType == "" || description == "" ==> r == Rejected(FILL_FIELDS_MESSAGE)
      ensures itemName != "" && itemType != "" && description != "" && coverImage.None? ==>
                r == Rejected(COVER_MESSAGE)
      ensures r.Posted? <==> itemName != "" && itemType != "" && description != "" && coverImage.Some?
      ensures r.Posted? ==>
                r.fields == FormFields(itemName, itemType, description, coverImage.value, additionalImages)
    {
      if itemName == "" || itemType == "" || description == "" {
        return Rejected(FILL_FIELDS_MESSAGE);
      }
      if coverImage.None? {
        return Rejected(COVER_MESSAGE);
      }
      var fields := [FormEntry("itemName", TextValue(itemName)),
                     FormEntry("itemType", TextValue(itemType)),
                     FormEntry("description", TextValue(description)),
                     FormEntry("coverImage", FileValue(coverImage.value))];
      ghost var head := fields;
      var k := 0;
      while k < |additionalImages|
        invariant 0 <= k <= |additionalImages|
        invariant fields == head + ImageEntries(additionalImages[..k])
      {
        assert additionalImages[..k + 1][..k] == additionalImages[..k];
        fields := fields + [FormEntry("additionalImages", FileValue(additionalImages[k]))];
        k := k + 1;
      }
      assert additionalImages[..k] == additionalImages;
      r := Posted(fields);
    }
  }
}
