/** The "add item" page: the form record, the image picker with its size
    and type rules, and the submit handler's own check and payload. The
    network call, the file reader and navigation are parameters or
    recorded effects. */
module AddItemForm {
  import opened Wrappers
  import opened Strings

  /** The form state: field name to the text in that input. */
  type Form = map<string, string>

  const FormFields: seq<string> := ["title", "description", "category", "status", "location",
                                    "date", "contactName", "contactPhone", "contactEmail"]

  /** The fields the page itself insists on; `status` is not among them. */
  const RequiredFields: seq<string> := ["title", "description", "category", "location",
                                        "date", "contactName", "contactPhone", "contactEmail"]

  const MaxImageBytes := 5 * 1024 * 1024
  const TooLargeMessage := "Image size should be less than 5MB"
  const NotAnImageMessage := "Please select an image file"
  const MissingFieldsMessage := "Please fill all required fields"
  const SubmitFallbackMessage := "Failed to add item"

  /** The starting form: status `lost`, every other field empty. */
  function InitialForm(): (f: Form)
    ensures forall k :: k in f <==> k in FormFields
    ensures f["status"] == "lost"
    ensures forall k :: k in f && k != "status" ==> f[k] == ""
  {
    map k | k in FormFields :: if k == "status" then "lost" else ""
  }

  /** `handleChange`: a copy of the form with the input's field set to its
      value. */
  function HandleChange(f: Form, name: string, value: string): (g: Form)
    ensures name in g && g[name] == value
    ensures forall k :: k != name ==> (k in g <==> k in f)
    ensures forall k :: k in f && k != name ==> g[k] == f[k]
  {
    f[name := value]
  }

  /** A field is truthy when it is there and not empty. */
  predicate Filled(f: Form, k: string) {
    k in f && f[k] != ""
  }

  /** The check at the start of `handleSubmit`. */
  predicate Complete(f: Form) {
    forall k :: k in RequiredFields ==> Filled(f, k)
  }

  /** The check field by field, as the handler writes it. */
  lemma CompleteFieldByField(f: Form)
    ensures Complete(f) <==>
      && Filled(f, "title") && Filled(f, "description") && Filled(f, "category")
      && Filled(f, "location") && Filled(f, "date") && Filled(f, "contactName")
      && Filled(f, "contactPhone") && Filled(f, "contactEmail")
  {
  }

  /** The untouched form cannot be sent. */
  lemma InitialFormIncomplete()
    ensures !Complete(InitialForm())
  {
    assert "title" in RequiredFields;
    assert "title" in FormFields;
  }

  /** An empty status does not hold the form back. */
  lemma StatusNotChecked(f: Form)
    requires Complete(f)
    ensures Complete(HandleChange(f, "status", ""))
  {
    assert "status" !in RequiredFields;
  }

  /** Clearing any required field holds the form back. */
  lemma ClearingRequiredBlocks(f: Form, k: string)
    requires k in RequiredFields
    ensures !Complete(HandleChange(f, k, ""))
  {
  }

  /** A picked file: its size in bytes and its MIME type. */
  datatype File = File(size: nat, mimeType: string)

  /** The verdict on a picked file: the size is checked first, then the MIME
      type; `None` means accepted. */
  function ImageCheck(file: File): (verdict: Option<string>)
    ensures verdict == None <==> file.size <= MaxImageBytes && StartsWith(file.mimeType, "image/")
  {
    if file.size > MaxImageBytes then Some(TooLargeMessage)
    else if !StartsWith(file.mimeType, "image/") then Some(NotAnImageMessage)
    else None
  }

  /** A file of exactly 5 MiB is small enough. */
  lemma ExactLimitAccepted(mimeType: string)
    requires StartsWith(mimeType, "image/")
    ensures ImageCheck(File(5242880, mimeType)) == None
  {
  }

  /** An oversized file is refused for its size, whatever its type. */
  lemma SizeCheckedFirst(file: File)
    requires file.size > MaxImageBytes
    ensures ImageCheck(file) == Some(TooLargeMessage)
  {
  }

  /** A file of the right size but not an image is refused for its type. */
  lemma TypeCheckedSecond(file: File)
    requires file.size <= MaxImageBytes
    requires !StartsWith(file.mimeType, "image/")
    ensures ImageCheck(file) == Some(NotAnImageMessage)
  {
  }

  /** `dataToSend`: the form, with an `image` key holding the encoded file
      only when one is selected. */
  function Payload(f: Form, image: Option<File>, encode: File -> string): (p: map<string, string>)
    ensures image.None? ==> p == f
    ensures image.Some? ==> "image" in p && p["image"] == encode(image.value)
    ensures forall k :: k != "image" ==> (k in p <==> k in f)
    ensures forall k :: k in f && k != "image" ==> p[k] == f[k]
  {
    if image.Some? then f["image" := encode(image.value)] else f
  }

  /** How the `POST /items` call ended: accepted, or refused with the
      server's message if the response carried one. */
  datatype PostOutcome = Posted | Refused(serverMessage: Option<string>)

  /** The page's state. `sent` records the bodies posted and `navigatedTo`
      the page the component moved to. */
  class AddItemPage {
    var form: Form
    var image: Option<File>
    var imagePreview: Option<string>
    var error: string
    var loading: bool
    var sent: seq<map<string, string>>
    var navigatedTo: Option<string>

    constructor ()
      ensures form == InitialForm() && image.None? && imagePreview.None?
      ensures error == "" && !loading && sent == [] && navigatedTo.None?
    {
      form := InitialForm();
      image := None;
      imagePreview := None;
      error := "";
      loading := false;
      sent := [];
      navigatedTo := None;
    }

    /** An input changed. */
    method Change(name: string, value: string)
      modifies this
      ensures form == HandleChange(old(form), name, value)
      ensures image == old(image) && imagePreview == old(imagePreview) && error == old(error)
      ensures loading == old(loading) && sent == old(sent) && navigatedTo == old(navigatedTo)
    {
      form := HandleChange(form, name, value);
    }

    /** `handleImageChange`: no file does nothing; a refused file sets the
        error and keeps the image; an accepted file becomes the image, its
        data URL the preview, and an earlier error stays. */
    method HandleImageChange(file: Option<File>, dataUrl: string)
      modifies this
      ensures file.None? || ImageCheck(file.value).Some? ==>
        image == old(image) && imagePreview == old(imagePreview)
      ensures file.Some? && ImageCheck(file.value).Some? ==> error == ImageCheck(file.value).value
      ensures file.None? || ImageCheck(file.value).None? ==> error == old(error)
      ensures file.Some? && ImageCheck(file.value).None? ==>
        image == file && imagePreview == Some(dataUrl)
      ensures form == old(form) && loading == old(loading) && sent == old(sent) && navigatedTo == old(navigatedTo)
    {
      if file.None? {
        return;
      }
      var f := file.value;
      if f.size > MaxImageBytes {
        error := TooLargeMessage;
        return;
      }
      if !StartsWith(f.mimeType, "image/") {
        error := NotAnImageMessage;
        return;
      }
      image := Some(f);
      imagePreview := Some(dataUrl);
    }

    /** `handleRemoveImage`. */
    method HandleRemoveImage()
      modifies this
      ensures image.None? && imagePreview.None?
      ensures form == old(form) && error == old(error) && loading == old(loading)
      ensures sent == old(sent) && navigatedTo == old(navigatedTo)
    {
      image := None;
      imagePreview := None;
    }

    /** `handleSubmit`: the error is cleared; an incomplete form sets the
        missing-fields error and sends nothing; otherwise the payload is
        posted, a success moves to the owner's listing, and a refusal shows
        the server's message or the fallback. Loading always ends false. */
    method HandleSubmit(encode: File -> string, outcome: PostOutcome)
      modifies this
      ensures !loading && form == old(form) && image == old(image) && imagePreview == old(imagePreview)
      ensures !Complete(old(form)) ==>
        error == MissingFieldsMessage && sent == old(sent) && navigatedTo == old(navigatedTo)
      ensures Complete(old(form)) ==> sent == old(sent) + [Payload(old(form), old(image), encode)]
      ensures Complete(old(form)) && outcome.Posted? ==>
        error == "" && navigatedTo == Some("/my-items")
      ensures Complete(old(form)) && outcome.Refused? ==>
        && error == (if Truthy(outcome.serverMessage) then outcome.serverMessage.value else SubmitFallbackMessage)
        && navigatedTo == old(navigatedTo)
    {
      CompleteFieldByField(form);
      error := "";
      loading := true;
      if !(Filled(form, "title") && Filled(form, "description") && Filled(form, "category")
           && Filled(form, "location") && Filled(form, "date") && Filled(form, "contactName")
           && Filled(form, "contactPhone") && Filled(form, "contactEmail")) {
        error := MissingFieldsMessage;
        loading := false;
        return;
      }
      var dataToSend := form;
      if image.Some? {
        dataToSend := dataToSend["image" := encode(image.value)];
      }
      assert dataToSend == Payload(form, image, encode);
      sent := sent + [dataToSend];
      match outcome {
        case Posted =>
          navigatedTo := Some("/my-items");
        case Refused(m) =>
          error := if Truthy(m) then m.value else SubmitFallbackMessage;
      }
      loading := false;
    }
  }
}
