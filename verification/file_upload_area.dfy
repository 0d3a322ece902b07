/**
 * The drop zone of the upload page: it opens the file picker on a click,
 * highlights while a file is dragged over it, and hands the first file of a
 * pick or a drop to the page. The page's processing flag and current
 * selection reach it as arguments, as React props do.
 */
module FileUploadArea {
  import opened Wrappers
  import opened Uploads

  const BaseClass: string :=
    "relative border-2 border-dashed rounded-xl p-8 text-center cursor-pointer transition-all duration-300 bg-gray-50"
  const DraggingModifier: string := " border-primary bg-primary/10"
  const SelectedModifier: string := " border-success bg-success/5"
  const IdleModifier: string := " border-gray-200"

  /** The three looks of the drop zone. */
  datatype AreaLook = Dragging | Selected | Idle

  /** Which look the zone takes: a drag in progress wins over a selection. */
  function LookOf(isDragging: bool, hasSelection: bool): (look: AreaLook)
    ensures look == Dragging <==> isDragging
    ensures look == Selected <==> !isDragging && hasSelection
    ensures look == Idle <==> !isDragging && !hasSelection
  {
    if isDragging then Dragging else if hasSelection then Selected else Idle
  }

  function Modifier(look: AreaLook): string {
    match look
    case Dragging => DraggingModifier
    case Selected => SelectedModifier
    case Idle => IdleModifier
  }

  predicate EndsWith(s: string, suffix: string) {
    |suffix| <= |s| && s[|s| - |suffix|..] == suffix
  }

  /** The class list of the drop zone, built by appending to the base class. */
  function UploadAreaClass(isDragging: bool, selectedFile: Option<FileInfo>): (cls: string)
    ensures cls == BaseClass + Modifier(LookOf(isDragging, selectedFile.Some?))
  {
    var baseClass := BaseClass;
    if isDragging then baseClass + DraggingModifier
    else if selectedFile.Some? then baseClass + SelectedModifier
    else baseClass + IdleModifier
  }

  /** The class list starts with the base class and ends with exactly one of the
      three modifiers, the one of the zone's look; so the class list tells the
      look apart. */
  lemma ExactlyOneModifier(isDragging: bool, selectedFile: Option<FileInfo>, look: AreaLook)
    ensures |UploadAreaClass(isDragging, selectedFile)| >= |BaseClass|
    ensures UploadAreaClass(isDragging, selectedFile)[..|BaseClass|] == BaseClass
    ensures EndsWith(UploadAreaClass(isDragging, selectedFile), Modifier(look))
        <==> look == LookOf(isDragging, selectedFile.Some?)
  {
    var cls, shown := UploadAreaClass(isDragging, selectedFile), LookOf(isDragging, selectedFile.Some?);
    var m := Modifier(look);
    assert cls[..|BaseClass|] == BaseClass;
    assert cls[|cls| - |Modifier(shown)|..] == Modifier(shown);
    if EndsWith(cls, m) {
      // the last two characters ("10", "/5", "00") tell the modifiers apart
      assert cls[|cls| - 2..] == m[|m| - 2..];
      assert cls[|cls| - 2..] == Modifier(shown)[|Modifier(shown)| - 2..];
    }
  }

  /** The clear button is rendered only while a file is selected. */
  predicate ShowsClearButton(selectedFile: Option<FileInfo>) {
    selectedFile.Some?
  }

  /** The first file of a `FileList` that may be missing, if it has one. */
  function FirstFile(files: Option<seq<FileInfo>>): (f: Option<FileInfo>)
    ensures f.Some? <==> files.Some? && |files.value| > 0
    ensures f.Some? ==> f.value == files.value[0]
  {
    if files.Some? && |files.value| > 0 then Some(files.value[0]) else None
  }

  class FileUploadArea {
    /** Whether a drag is hovering over the zone. */
    var isDragging: bool

    constructor ()
      ensures !isDragging
    {
      isDragging := false;
    }

    /** A click on the zone: opens the hidden file input, unless the page is
        processing or the input is not mounted yet. */
    method HandleClick(isProcessing: bool, inputMounted: bool) returns (opensPicker: bool)
      ensures opensPicker <==> !isProcessing && inputMounted
    {
      opensPicker := !isProcessing && inputMounted;
    }

    /** The file input's change event: hands on the first chosen file, if any. */
    method HandleFileChange(files: Option<seq<FileInfo>>) returns (forwarded: Option<FileInfo>)
      ensures forwarded.Some? <==> files.Some? && |files.value| > 0
      ensures forwarded.Some? ==> forwarded.value == files.value[0]
    {
      forwarded := FirstFile(files);
    }

    method HandleDragEnter(isProcessing: bool)
      modifies this
      ensures isDragging == (!isProcessing || old(isDragging))
    {
      if !isProcessing {
        isDragging := true;
      }
    }

    method HandleDragLeave()
      modifies this
      ensures !isDragging
    {
      isDragging := false;
    }

    /** A drop: always ends the highlight; hands on the first dropped file
        unless the list is empty or missing or the page is processing. */
    method HandleDrop(files: Option<seq<FileInfo>>, isProcessing: bool) returns (forwarded: Option<FileInfo>)
      modifies this
      ensures !isDragging
      ensures forwarded.Some? <==> files.Some? && |files.value| > 0 && !isProcessing
      ensures forwarded.Some? ==> forwarded.value == files.value[0]
    {
      isDragging := false;
      forwarded := if isProcessing then None else FirstFile(files);
    }

    /** A click on the clear button, which exists only while a file is
        selected: it asks the page to clear the selection, and stops the event
        before it reaches the zone, so the picker does not open. */
    method HandleClearButtonClick(selectedFile: Option<FileInfo>) returns (clears: bool, opensPicker: bool)
      requires ShowsClearButton(selectedFile)
      ensures clears && !opensPicker
    {
      clears := true;
      opensPicker := false;
    }
  }
}
