/** frontend/src/components/UploadSection.jsx: the syllabus form. The user picks one of the
    two rendered methods (text, document), types text or chooses a file, and submits; a valid
    submission hands `{ type, content, timestamp }` to `onSyllabusUploaded`. The handlers
    also know a third method, image, but its button is commented out, so `uploadMethod` never
    takes that value and the image branches of `handleSubmit` are dead code.

    The component's state variables are the fields of `UploadSection`, the `value` of the
    hidden file input is the field `fileInputValue` ("" while text mode leaves it unmounted), and the callback and the toasts are
    recorded as lists. The 1.5 s delay before delivery is not modelled. */
module Upload {
  import opened Basics
  import opened Strings

  /** A browser `File`: what the components read of it. */
  datatype File = File(name: string, mimeType: string, size: nat)

  /** `content` of the delivered syllabus: the text, or the file state (`None` for `null`). */
  datatype Content = TextContent(text: string) | FileContent(file: Option<File>)

  /** The object handed to `onSyllabusUploaded`; `kind` is its `type`. */
  datatype SyllabusData = SyllabusData(kind: string, content: Content, timestamp: string)

  /** The three methods `handleSubmit` distinguishes. */
  const UploadMethods: seq<string> := ["text", "file", "image"]

  /** The two rendered buttons set `uploadMethod` to one of these. */
  const MethodButtons: seq<string> := ["text", "file"]

  /** The MIME whitelist of `handleFileUpload`. */
  const AllowedTypes: seq<string> := [
    "application/pdf",
    "application/msword",
    "application/vnd.openxmlformats-officedocument.wordprocessingml.document",
    "text/plain",
    "image/jpeg",
    "image/png"
  ]

  const UnsupportedType: string := "Unsupported file type. Please upload a PDF, Word, Text, or image file."
  const EnterContent: string := "Please enter syllabus content."
  const Uploaded: string := "Syllabus uploaded successfully!"

  /** The error `handleSubmit` raises before delivering anything, if any. */
  function SubmitError(uploadMethod: string, syllabusText: string, uploadedFile: Option<File>): Option<string> {
    if uploadMethod == "text" && Trim(syllabusText) == "" then Some(EnterContent)
    else if (uploadMethod == "file" || uploadMethod == "image") && uploadedFile.None? then
      Some("Please upload a " + (if uploadMethod == "file" then "document" else "image") + " first.")
    else None
  }

  /** The object `handleSubmit` delivers. */
  function Payload(uploadMethod: string, syllabusText: string, uploadedFile: Option<File>, timestamp: string): SyllabusData {
    SyllabusData(uploadMethod, if uploadMethod == "text" then TextContent(syllabusText) else FileContent(uploadedFile), timestamp)
  }

  /** For each of the three methods, submitting is refused exactly when its input is missing:
      whitespace-only text in text mode, no file in the two file modes. */
  lemma SubmitRefusedIff(uploadMethod: string, syllabusText: string, uploadedFile: Option<File>)
    requires uploadMethod in UploadMethods
    ensures SubmitError(uploadMethod, syllabusText, uploadedFile).Some? <==>
            if uploadMethod == "text" then AllWhitespace(syllabusText) else uploadedFile.None?
    ensures uploadMethod == "text" && AllWhitespace(syllabusText) ==> SubmitError(uploadMethod, syllabusText, uploadedFile) == Some(EnterContent)
    ensures uploadMethod == "file" && uploadedFile.None? ==> SubmitError(uploadMethod, syllabusText, uploadedFile) == Some("Please upload a document first.")
    ensures uploadMethod == "image" && uploadedFile.None? ==> SubmitError(uploadMethod, syllabusText, uploadedFile) == Some("Please upload a image first.")
  {
    assert "Please upload a " + "document" + " first." == "Please upload a document first.";
    assert "Please upload a " + "image" + " first." == "Please upload a image first.";
  }

  /** A delivered syllabus carries the current method and, in text mode, the text as typed
      (untrimmed), otherwise the chosen file itself. */
  lemma PayloadContent(uploadMethod: string, syllabusText: string, uploadedFile: Option<File>, timestamp: string)
    requires uploadMethod in UploadMethods && SubmitError(uploadMethod, syllabusText, uploadedFile).None?
    ensures var p := Payload(uploadMethod, syllabusText, uploadedFile, timestamp);
            && p.kind == uploadMethod
            && (uploadMethod == "text" ==> p.content == TextContent(syllabusText) && !AllWhitespace(syllabusText))
            && (uploadMethod != "text" ==> uploadedFile.Some? && p.content == FileContent(uploadedFile))
  {
  }

  class UploadSection {
    var uploadMethod: string
    var syllabusText: string
    var uploadedFile: Option<File>
    var isUploading: bool
    var expandedInfo: bool
    var fileInputValue: string
    var delivered: seq<SyllabusData>
    var toasts: seq<Toast>

    /** The method is one of the two buttons' values, a stored file has a whitelisted type,
        and no delivered syllabus is an image. */
    predicate Valid()
      reads this
    {
      && uploadMethod in MethodButtons
      && (uploadedFile.Some? ==> uploadedFile.value.mimeType in AllowedTypes)
      && forall i :: 0 <= i < |delivered| ==> delivered[i].kind in MethodButtons
    }

    constructor ()
      ensures Valid()
      ensures uploadMethod == "text" && syllabusText == "" && uploadedFile.None?
      ensures !isUploading && !expandedInfo && fileInputValue == "" && delivered == [] && toasts == []
    {
      uploadMethod, syllabusText, uploadedFile := "text", "", None;
      isUploading, expandedInfo, fileInputValue := false, false, "";
      delivered, toasts := [], [];
    }

    /** One of the two method buttons. The file input is rendered only in file mode, so
        choosing text unmounts it and the input mounted on the way back starts empty; in text
        mode `fileInputValue` is that empty value. Staying in file mode keeps the input. */
    method SetUploadMethod(m: string)
      requires Valid() && m in MethodButtons
      modifies this
      ensures Valid()
      ensures uploadMethod == m
      ensures fileInputValue == if m == "text" then "" else old(fileInputValue)
      ensures syllabusText == old(syllabusText) && uploadedFile == old(uploadedFile)
      ensures isUploading == old(isUploading) && expandedInfo == old(expandedInfo)
      ensures delivered == old(delivered) && toasts == old(toasts)
    {
      uploadMethod := m;
      if m == "text" {
        fileInputValue := "";
      }
    }

    /** `handleTextChange`. */
    method HandleTextChange(value: string)
      requires Valid()
      modifies this
      ensures Valid()
      ensures syllabusText == value
      ensures uploadMethod == old(uploadMethod) && uploadedFile == old(uploadedFile) && fileInputValue == old(fileInputValue)
      ensures isUploading == old(isUploading) && expandedInfo == old(expandedInfo)
      ensures delivered == old(delivered) && toasts == old(toasts)
    {
      syllabusText := value;
    }

    /** `handleFileUpload`: `files` is the input's file list and `inputValue` the value the
        browser gave the input for that choice. No file changes nothing; a file off the
        whitelist is refused with a toast and the previous file stays. */
    method HandleFileUpload(files: seq<File>, inputValue: string)
      requires Valid()
      modifies this
      ensures Valid()
      ensures fileInputValue == inputValue
      ensures uploadedFile == if files != [] && files[0].mimeType in AllowedTypes then Some(files[0]) else old(uploadedFile)
      ensures toasts == if files != [] && files[0].mimeType !in AllowedTypes then old(toasts) + [ErrorToast(UnsupportedType)] else old(toasts)
      ensures uploadMethod == old(uploadMethod) && syllabusText == old(syllabusText)
      ensures isUploading == old(isUploading) && expandedInfo == old(expandedInfo) && delivered == old(delivered)
    {
      fileInputValue := inputValue;
      if files == [] {
        return;
      }
      var file := files[0];
      if file.mimeType !in AllowedTypes {
        toasts := toasts + [ErrorToast(UnsupportedType)];
        return;
      }
      uploadedFile := Some(file);
    }

    /** `handleSubmit`, with `timestamp` the ISO time of the call: either one error toast and
        nothing delivered, or the payload delivered with a success toast and `isUploading`
        back to false. */
    method HandleSubmit(timestamp: string)
      requires Valid()
      modifies this
      ensures Valid()
      ensures var e := SubmitError(old(uploadMethod), old(syllabusText), old(uploadedFile));
              && (e.Some? ==> toasts == old(toasts) + [ErrorToast(e.value)] && delivered == old(delivered) && isUploading == old(isUploading))
              && (e.None? ==> toasts == old(toasts) + [SuccessToast(Uploaded)] && !isUploading
                              && delivered == old(delivered) + [Payload(old(uploadMethod), old(syllabusText), old(uploadedFile), timestamp)])
      ensures uploadMethod == old(uploadMethod) && syllabusText == old(syllabusText) && uploadedFile == old(uploadedFile)
      ensures fileInputValue == old(fileInputValue) && expandedInfo == old(expandedInfo)
    {
      if uploadMethod == "text" && Trim(syllabusText) == "" {
        toasts := toasts + [ErrorToast(EnterContent)];
        return;
      }
      if (uploadMethod == "file" || uploadMethod == "image") && uploadedFile.None? {
        toasts := toasts + [ErrorToast("Please upload a " + (if uploadMethod == "file" then "document" else "image") + " first.")];
        return;
      }
      isUploading := true;
      var syllabusData := SyllabusData(uploadMethod, if uploadMethod == "text" then TextContent(syllabusText) else FileContent(uploadedFile), timestamp);
      toasts := toasts + [SuccessToast(Uploaded)];
      delivered := delivered + [syllabusData];
      isUploading := false;
    }

    /** `clearUpload`: only the current method's input is cleared. The file input is rendered
        in both file modes, so its ref is set and its value is cleared with the file. */
    method ClearUpload()
      requires Valid()
      modifies this
      ensures Valid()
      ensures old(uploadMethod) == "text" ==> syllabusText == "" && uploadedFile == old(uploadedFile) && fileInputValue == old(fileInputValue)
      ensures old(uploadMethod) != "text" ==> syllabusText == old(syllabusText) && uploadedFile.None? && fileInputValue == ""
      ensures uploadMethod == old(uploadMethod) && isUploading == old(isUploading) && expandedInfo == old(expandedInfo)
      ensures delivered == old(delivered) && toasts == old(toasts)
    {
      if uploadMethod == "text" {
        syllabusText := "";
      } else {
        uploadedFile := None;
        fileInputValue := "";
      }
    }

    /** `toggleInfoExpand`. */
    method ToggleInfoExpand()
      modifies this
      ensures expandedInfo == !old(expandedInfo)
      ensures uploadMethod == old(uploadMethod) && syllabusText == old(syllabusText) && uploadedFile == old(uploadedFile)
      ensures fileInputValue == old(fileInputValue) && isUploading == old(isUploading)
      ensures delivered == old(delivered) && toasts == old(toasts)
    {
      expandedInfo := !expandedInfo;
    }
  }
}
