/**
  The file picker used for the college logo: a hidden file input, a drop
  zone that filters dropped files by MIME type, a remove button and a
  click that opens the browser's file dialog. Its `onChange` callback is
  the owner's state setter, so the control's reported `value` is kept here.
 */
module FileInput {
  import opened Types
  import opened Strings

  /** The parts of a browser `File` the application reads. */
  datatype FileInfo = FileInfo(name: string, mimeType: string, size: nat)

  /** The `accept` attribute's default. */
  const DefaultAccept := "image/*"

  /** `file.type.split('/')[0]`: the top-level type, or the whole MIME type when it has no `/`. */
  function MimeKind(f: FileInfo): (kind: string)
    ensures kind <= f.mimeType && '/' !in kind
    ensures |kind| < |f.mimeType| ==> f.mimeType[|kind|] == '/'
  {
    BeforeFirst(f.mimeType, '/')
  }

  /**
    The drop test: the top-level type occurs anywhere in `accept`. It is a
    plain substring test, not a MIME match.
   */
  predicate DropAccepted(accept: string, f: FileInfo)
  {
    Includes(accept, MimeKind(f))
  }

  /** The drop test holds exactly when the top-level type occurs somewhere in `accept`. */
  lemma DropAcceptedIffOccurs(accept: string, f: FileInfo)
    ensures DropAccepted(accept, f) <==> exists i :: 0 <= i <= |accept| && OccursAt(MimeKind(f), accept, i)
  {
    IncludesIffOccurs(accept, MimeKind(f));
  }

  /** A file whose MIME type is empty, or starts with `/`, passes any `accept`. */
  lemma EmptyKindAlwaysAccepted(accept: string, f: FileInfo)
    requires f.mimeType == "" || f.mimeType[0] == '/'
    ensures DropAccepted(accept, f)
  {
    assert MimeKind(f) == "";
  }

  lemma ImageKindExample()
    ensures MimeKind(FileInfo("logo.png", "image/png", 2048)) == "image"
  {
    assert "image/png" == "image" + ['/'] + "png";
    BeforeFirstSplit("image", '/', "png");
  }

  lemma PdfKindExample()
    ensures MimeKind(FileInfo("a.pdf", "application/pdf", 2048)) == "application"
  {
    assert "application/pdf" == "application" + ['/'] + "pdf";
    BeforeFirstSplit("application", '/', "pdf");
  }

  /** With the default `accept`, a PNG is taken and a PDF is not. */
  lemma DefaultAcceptExamples()
    ensures DropAccepted(DefaultAccept, FileInfo("logo.png", "image/png", 2048))
    ensures !DropAccepted(DefaultAccept, FileInfo("a.pdf", "application/pdf", 2048))
  {
    ImageKindExample();
    PdfKindExample();
    assert "image" <= "image/*";
    var f := FileInfo("a.pdf", "application/pdf", 2048);
    DropAcceptedIffOccurs(DefaultAccept, f);
    forall i | 0 <= i <= |DefaultAccept| ensures !OccursAt("application", DefaultAccept, i) {
    }
  }

  /** `files?.[0] || null`: the first file, if any. */
  function FirstFile(files: seq<FileInfo>): (f: Option<FileInfo>)
    ensures f.Some? <==> |files| > 0
    ensures f.Some? ==> f.value == files[0]
  {
    if |files| > 0 then Some(files[0]) else None
  }

  class FileInputControl {
    const accept: string
    const disabled: bool
    /** What `onChange` last reported: the owner's selected file. */
    var value: Option<FileInfo>
    /** The files the hidden `<input type="file">` holds. */
    var inputFiles: seq<FileInfo>
    /** Whether the browser's file dialog has been opened. */
    var dialogOpened: bool

    constructor (accept: string, disabled: bool, value: Option<FileInfo>)
      ensures this.accept == accept && this.disabled == disabled && this.value == value
      ensures inputFiles == [] && !dialogOpened
    {
      this.accept := accept;
      this.disabled := disabled;
      this.value := value;
      inputFiles := [];
      dialogOpened := false;
    }

    /** `handleFileChange`: the input now holds `files`; the first one (or none) is reported. */
    method HandleFileChange(files: seq<FileInfo>)
      modifies this
      ensures inputFiles == files
      ensures value == FirstFile(files)
      ensures dialogOpened == old(dialogOpened)
    {
      inputFiles := files;
      value := FirstFile(files);
    }

    /**
      `handleDrop`: ignored when disabled; otherwise the first dropped file
      is reported when its top-level type passes the drop test, and nothing
      happens when it does not or when nothing was dropped.
     */
    method HandleDrop(files: seq<FileInfo>)
      modifies this
      ensures disabled ==> value == old(value)
      ensures !disabled && |files| > 0 && DropAccepted(accept, files[0]) ==> value == Some(files[0])
      ensures (|files| == 0 || !DropAccepted(accept, files[0])) ==> value == old(value)
      ensures inputFiles == old(inputFiles) && dialogOpened == old(dialogOpened)
    {
      if disabled {
        return;
      }
      var file := FirstFile(files);
      if file.Some? && DropAccepted(accept, file.value) {
        value := file;
      }
    }

    /** `removeFile`: report no file and empty the input. */
    method RemoveFile()
      modifies this
      ensures value.None? && inputFiles == []
      ensures dialogOpened == old(dialogOpened)
    {
      value := None;
      inputFiles := [];
    }

    /** `openFileDialog`: a click opens the dialog unless the control is disabled. */
    method OpenFileDialog()
      modifies this
      ensures dialogOpened == (old(dialogOpened) || !disabled)
      ensures value == old(value) && inputFiles == old(inputFiles)
    {
      if !disabled {
        dialogOpened := true;
      }
    }
  }
}
