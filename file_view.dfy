/**
 * How the browser code of public/script.js classifies a listed file by its
 * extension: the icon kind, the Font Awesome icon class, whether the editor
 * may open it, and the icon of a toast notification.
 */
module FileView {
  import opened Text

  /** The two fields of a listed item that the classifiers read. */
  datatype FileItem = FileItem(isDirectory: bool, extension: string)

  const TextExts: seq<string> := [".txt", ".md", ".json", ".xml", ".csv"]
  const ImageExts: seq<string> := [".jpg", ".jpeg", ".png", ".gif", ".bmp", ".svg"]
  const VideoExts: seq<string> := [".mp4", ".avi", ".mov", ".wmv", ".flv"]
  const AudioExts: seq<string> := [".mp3", ".wav", ".flac", ".aac"]
  const ArchiveExts: seq<string> := [".zip", ".rar", ".7z", ".tar", ".gz"]
  const DocumentExts: seq<string> := [".pdf", ".doc", ".docx", ".xls", ".xlsx", ".ppt", ".pptx"]
  const SourceExts: seq<string> := [".js", ".css", ".html", ".php", ".py"]
  const EditableExts: seq<string> := [".txt", ".md", ".json", ".xml", ".csv", ".js", ".css", ".html", ".php", ".py"]

  /**
   * `getFileIcon`: "folder" for a directory; otherwise the kind whose list
   * holds the lower-cased extension, and "default" when none does.
   */
  function FileIcon(item: FileItem): (icon: string)
    ensures item.isDirectory <==> icon == "folder"
    ensures icon == "text" <==> !item.isDirectory && Lower(item.extension) in TextExts
    ensures icon == "image" <==> !item.isDirectory && Lower(item.extension) in ImageExts
    ensures icon == "video" <==> !item.isDirectory && Lower(item.extension) in VideoExts
    ensures icon == "audio" <==> !item.isDirectory && Lower(item.extension) in AudioExts
    ensures icon == "archive" <==> !item.isDirectory && Lower(item.extension) in ArchiveExts
    ensures icon == "document" <==> !item.isDirectory && Lower(item.extension) in DocumentExts
    ensures icon == "default" <==>
      !item.isDirectory && Lower(item.extension) !in TextExts + ImageExts + VideoExts + AudioExts + ArchiveExts + DocumentExts
  {
    if item.isDirectory then "folder"
    else
      var ext := Lower(item.extension);
      if ext in TextExts then "text"
      else if ext in ImageExts then "image"
      else if ext in VideoExts then "video"
      else if ext in AudioExts then "audio"
      else if ext in ArchiveExts then "archive"
      else if ext in DocumentExts then "document"
      else "default"
  }

  /**
   * `getFileIconClass`: a finer split than `FileIcon`: text and markdown,
   * structured data and source code share "fa-file-code", each office format
   * has its own class, and ".csv" falls through to "fa-file".
   */
  function FileIconClass(item: FileItem): (cls: string)
    ensures item.isDirectory <==> cls == "fa-folder"
    ensures cls == "fa-file-code" <==>
      !item.isDirectory && Lower(item.extension) in [".json", ".xml"] + SourceExts
    ensures cls == "fa-file-text" <==> !item.isDirectory && Lower(item.extension) in [".txt", ".md"]
    ensures cls == "fa-file-image" <==> !item.isDirectory && Lower(item.extension) in ImageExts
    ensures cls == "fa-file-video" <==> !item.isDirectory && Lower(item.extension) in VideoExts
    ensures cls == "fa-file-audio" <==> !item.isDirectory && Lower(item.extension) in AudioExts
    ensures cls == "fa-file-archive" <==> !item.isDirectory && Lower(item.extension) in ArchiveExts
    ensures cls == "fa-file-pdf" <==> !item.isDirectory && Lower(item.extension) == ".pdf"
    ensures cls == "fa-file-word" <==> !item.isDirectory && Lower(item.extension) in [".doc", ".docx"]
    ensures cls == "fa-file-excel" <==> !item.isDirectory && Lower(item.extension) in [".xls", ".xlsx"]
    ensures cls == "fa-file-powerpoint" <==> !item.isDirectory && Lower(item.extension) in [".ppt", ".pptx"]
    // ".csv" is on the text list of `getFileIcon` but on no list here
    ensures cls == "fa-file" <==>
      && !item.isDirectory
      && (|| Lower(item.extension) == ".csv"
          || Lower(item.extension) !in TextExts + ImageExts + VideoExts + AudioExts + ArchiveExts + DocumentExts + SourceExts)
  {
    if item.isDirectory then "fa-folder"
    else
      var ext := Lower(item.extension);
      if ext in [".txt", ".md"] then "fa-file-text"
      else if ext in [".json", ".xml"] then "fa-file-code"
      else if ext in ImageExts then "fa-file-image"
      else if ext in VideoExts then "fa-file-video"
      else if ext in AudioExts then "fa-file-audio"
      else if ext in ArchiveExts then "fa-file-archive"
      else if ext in [".pdf"] then "fa-file-pdf"
      else if ext in [".doc", ".docx"] then "fa-file-word"
      else if ext in [".xls", ".xlsx"] then "fa-file-excel"
      else if ext in [".ppt", ".pptx"] then "fa-file-powerpoint"
      else if ext in SourceExts then "fa-file-code"
      else "fa-file"
  }

  /**
   * `isEditableFile`: never a directory; a file exactly when its lower-cased
   * extension is one of the text or source extensions.
   */
  function IsEditable(item: FileItem): (editable: bool)
    ensures item.isDirectory ==> !editable
    ensures !item.isDirectory ==>
      (editable <==> Lower(item.extension) in TextExts || Lower(item.extension) in SourceExts)
  {
    assert EditableExts == TextExts + SourceExts;
    !item.isDirectory && Lower(item.extension) in EditableExts
  }

  /** The editor opens exactly the text files and the files shown with the code icon. */
  lemma EditableIsTextOrCode(item: FileItem)
    ensures IsEditable(item) <==> FileIcon(item) == "text" || FileIconClass(item) == "fa-file-code"
  {
    assert EditableExts == TextExts + SourceExts;
  }

  /** The two icon functions agree on every media and archive kind. */
  lemma IconsAgree(item: FileItem)
    ensures FileIcon(item) == "image" <==> FileIconClass(item) == "fa-file-image"
    ensures FileIcon(item) == "video" <==> FileIconClass(item) == "fa-file-video"
    ensures FileIcon(item) == "audio" <==> FileIconClass(item) == "fa-file-audio"
    ensures FileIcon(item) == "archive" <==> FileIconClass(item) == "fa-file-archive"
    ensures FileIcon(item) == "document" <==>
      FileIconClass(item) in ["fa-file-pdf", "fa-file-word", "fa-file-excel", "fa-file-powerpoint"]
  {
  }

  /** None of the classifiers cares about the case of the extension. */
  lemma ClassifiersIgnoreCase(isDirectory: bool, extension: string)
    ensures var a, b := FileItem(isDirectory, extension), FileItem(isDirectory, Lower(extension));
      FileIcon(a) == FileIcon(b) && FileIconClass(a) == FileIconClass(b) && IsEditable(a) == IsEditable(b)
  {
    LowerIdempotent(extension);
  }

  /** `getToastIcon`: the icon of a notification of the given type. */
  function ToastIcon(kind: string): (icon: string)
    ensures kind == "success" <==> icon == "fa-check-circle"
    ensures kind == "error" <==> icon == "fa-exclamation-circle"
    ensures kind == "warning" <==> icon == "fa-exclamation-triangle"
    ensures kind !in ["success", "error", "warning"] <==> icon == "fa-info-circle"
  {
    match kind
    case "success" => "fa-check-circle"
    case "error" => "fa-exclamation-circle"
    case "warning" => "fa-exclamation-triangle"
    case _ => "fa-info-circle"
  }
}
