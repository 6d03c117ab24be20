/** The shared-resources panel (src/components/UploadFile.jsx): the 10 MiB
    ceiling on selection, the upload that prepends a resource while a progress
    timer ticks, the uploader-only delete control, delete by id and the
    file-type icon. The timer's ticks, the blob URL, ids, clocks and the
    confirmation dialog's answer are parameters. */
module UploadFile {
  import opened Wrappers
  import opened Seqs
  import opened Text
  import opened Identity

  /** `10 * 1024 * 1024` bytes. */
  const MaxFileSize: nat := 10 * 1024 * 1024

  datatype SelectedFile = SelectedFile(name: string, size: nat, mimeType: string)

  datatype Resource = Resource(
    id: string,
    name: string,
    originalName: string,
    url: string,
    size: nat,
    mimeType: string,
    uploadedAt: int,
    uploadedBy: string,
    uploadedByName: string)

  /** A selection passes the size check unless it is larger than the ceiling. */
  predicate SizeAllowed(size: nat) {
    !(size > MaxFileSize)
  }

  /** Exactly 10 MiB is accepted and one byte more is refused. */
  lemma SizeCeiling(size: nat)
    ensures MaxFileSize == 10485760
    ensures SizeAllowed(size) <==> size <= 10485760
  {
  }

  /** The progress updater: `prev >= 90 ? 90 : prev + 10`. */
  function ProgressStep(prev: int): (next: int)
    ensures prev >= 90 ==> next == 90
    ensures prev < 90 ==> next == prev + 10
  {
    if prev >= 90 then 90 else prev + 10
  }

  /** The progress after `ticks` firings of the updater. */
  function ProgressAfter(start: int, ticks: nat): int {
    if ticks == 0 then start else ProgressStep(ProgressAfter(start, ticks - 1))
  }

  /** Starting from 0 the bar shows `min(10 * ticks, 90)`: always a multiple of
      10 from 0 to 90. */
  lemma {:induction false} ProgressFromZero(ticks: nat)
    ensures ProgressAfter(0, ticks) == if 10 * ticks < 90 then 10 * ticks else 90
    ensures 0 <= ProgressAfter(0, ticks) <= 90 && ProgressAfter(0, ticks) % 10 == 0
  {
    if ticks > 0 {
      ProgressFromZero(ticks - 1);
    }
  }

  /** On that grid the updater is the capped increment `min(prev + 10, 90)`. */
  lemma StepOnGrid(prev: int)
    requires 0 <= prev <= 90 && prev % 10 == 0
    ensures ProgressStep(prev) == if prev + 10 < 90 then prev + 10 else 90
    ensures 0 <= ProgressStep(prev) <= 90 && ProgressStep(prev) % 10 == 0
  {
  }

  /** The `resourceData` record `handleUpload` builds. */
  function NewResource(f: SelectedFile, u: User, id: string, now: int, url: string): (r: Resource)
    ensures r.uploadedBy == u.uid && r.uploadedByName == SenderLabel(u)
    ensures r.name == f.name && r.originalName == f.name
    ensures r.size == f.size && r.mimeType == f.mimeType
    ensures r.id == id && r.uploadedAt == now && r.url == url
  {
    Resource(id, f.name, f.name, url, f.size, f.mimeType, now, u.uid, SenderLabel(u))
  }

  /** `resource.uploadedBy === user?.uid`: the Delete button is shown. */
  predicate CanDelete(user: Option<User>, r: Resource) {
    UidOf(user) == Some(r.uploadedBy)
  }

  /** The uploader, and only the uploader, is offered Delete; nobody is when no
      user is signed in. A fresh upload is deletable by the one who made it. */
  lemma CanDeleteIffUploader(user: Option<User>, r: Resource, f: SelectedFile, id: string, now: int, url: string)
    ensures CanDelete(user, r) <==> user.Some? && r.uploadedBy == user.value.uid
    ensures user.Some? ==> CanDelete(user, NewResource(f, user.value, id, now, url))
  {
  }

  /** `resource.id !== resourceId`. */
  function KeepOtherIds(resourceId: string): Resource -> bool {
    (r: Resource) => r.id != resourceId
  }

  /** `prev.filter(resource => resource.id !== resourceId)`. */
  function RemoveById(resources: seq<Resource>, resourceId: string): (r: seq<Resource>)
    ensures |r| <= |resources|
    ensures forall i :: 0 <= i < |r| ==> r[i].id != resourceId
  {
    Filter(resources, KeepOtherIds(resourceId))
  }

  /** Deleting by id removes every resource with that id and nothing else: the
      others stay, in order, each as often as before. */
  lemma RemoveByIdKeepsOthers(resources: seq<Resource>, resourceId: string)
    ensures IsSubsequence(RemoveById(resources, resourceId), resources)
    ensures forall r: Resource :: r.id != resourceId ==>
              multiset(RemoveById(resources, resourceId))[r] == multiset(resources)[r]
    ensures (forall i :: 0 <= i < |resources| ==> resources[i].id != resourceId) ==>
              RemoveById(resources, resourceId) == resources
  {
    FilterIsSubsequence(resources, KeepOtherIds(resourceId));
    forall r: Resource | r.id != resourceId
      ensures multiset(RemoveById(resources, resourceId))[r] == multiset(resources)[r]
    {
      FilterKeepsCount(resources, KeepOtherIds(resourceId), r);
    }
    FilterKeepsAll(resources, KeepOtherIds(resourceId));
  }

  /** The icons `getFileIcon` returns, in the order it tests for them. */
  datatype FileIcon = PdfIcon | DocumentIcon | SpreadsheetIcon | ImageIcon | VideoIcon | AudioIcon | FolderIcon

  /** `getFileIcon`: the first test on the type text that succeeds decides. */
  function GetFileIcon(mimeType: string): FileIcon {
    if Includes(mimeType, "pdf") then PdfIcon
    else if Includes(mimeType, "word") || Includes(mimeType, "document") then DocumentIcon
    else if Includes(mimeType, "excel") || Includes(mimeType, "spreadsheet") then SpreadsheetIcon
    else if Includes(mimeType, "image") then ImageIcon
    else if Includes(mimeType, "video") then VideoIcon
    else if Includes(mimeType, "audio") then AudioIcon
    else FolderIcon
  }

  /** The classification in terms of where the keywords occur: a type naming
      "pdf" always gets the PDF icon, each later icon needs its keyword and the
      absence of every earlier one, and a type with none of them gets the folder. */
  lemma FileIconFirstMatch(t: string)
    ensures OccursIn("pdf", t) ==> GetFileIcon(t) == PdfIcon
    ensures GetFileIcon(t) == DocumentIcon <==>
              !OccursIn("pdf", t) && (OccursIn("word", t) || OccursIn("document", t))
    ensures GetFileIcon(t) == SpreadsheetIcon <==>
              !OccursIn("pdf", t) && !OccursIn("word", t) && !OccursIn("document", t) &&
              (OccursIn("excel", t) || OccursIn("spreadsheet", t))
    ensures GetFileIcon(t) == ImageIcon <==>
              !OccursIn("pdf", t) && !OccursIn("word", t) && !OccursIn("document", t) &&
              !OccursIn("excel", t) && !OccursIn("spreadsheet", t) && OccursIn("image", t)
    ensures GetFileIcon(t) == VideoIcon <==>
              !OccursIn("pdf", t) && !OccursIn("word", t) && !OccursIn("document", t) &&
              !OccursIn("excel", t) && !OccursIn("spreadsheet", t) && !OccursIn("image", t) &&
              OccursIn("video", t)
    ensures GetFileIcon(t) == AudioIcon <==>
              !OccursIn("pdf", t) && !OccursIn("word", t) && !OccursIn("document", t) &&
              !OccursIn("excel", t) && !OccursIn("spreadsheet", t) && !OccursIn("image", t) &&
              !OccursIn("video", t) && OccursIn("audio", t)
    ensures GetFileIcon(t) == FolderIcon <==>
              !OccursIn("pdf", t) && !OccursIn("word", t) && !OccursIn("document", t) &&
              !OccursIn("excel", t) && !OccursIn("spreadsheet", t) && !OccursIn("image", t) &&
              !OccursIn("video", t) && !OccursIn("audio", t)
  {
    IncludesIffOccurs(t, "pdf");
    IncludesIffOccurs(t, "word");
    IncludesIffOccurs(t, "document");
    IncludesIffOccurs(t, "excel");
    IncludesIffOccurs(t, "spreadsheet");
    IncludesIffOccurs(t, "image");
    IncludesIffOccurs(t, "video");
    IncludesIffOccurs(t, "audio");
  }

  /** The Upload button is enabled: a file is selected and no upload is running. */
  predicate UploadEnabled(file: Option<SelectedFile>, loading: bool) {
    file.Some? && !loading
  }

  /** The button and the handler agree: an enabled button with a user signed in
      always uploads; without a file, or while an upload runs, it is disabled. */
  lemma UploadButtonMatchesHandler(file: Option<SelectedFile>, loading: bool, user: Option<User>)
    ensures UploadEnabled(file, loading) && user.Some? ==> file.Some? && user.Some?
    ensures file.None? || loading ==> !UploadEnabled(file, loading)
  {
  }

  /** What `handleUpload` captured at the click and still holds while it waits:
      the file and the user of that render. */
  datatype InFlight = InFlight(file: SelectedFile, uploader: User)

  /** The panel's state. `intervalActive` says whether the progress timer is
      still scheduled; `inFlight` is the upload suspended at its `await`. */
  class UploadPanel {
    var file: Option<SelectedFile>
    var loading: bool
    var uploadProgress: int
    var resources: seq<Resource>
    var user: Option<User>
    var intervalActive: bool
    var inFlight: Option<InFlight>

    constructor (user: Option<User>, resources: seq<Resource>)
      ensures file.None? && !loading && uploadProgress == 0 && !intervalActive
      ensures this.resources == resources && this.user == user && inFlight.None?
    {
      file := None;
      loading := false;
      uploadProgress := 0;
      this.resources := resources;
      this.user := user;
      intervalActive := false;
      inFlight := None;
    }

    /** `handleFileSelect`: a file over the ceiling raises the alert and leaves
        the selection alone; otherwise the file becomes the selection. No file
        picked changes nothing. */
    method HandleFileSelect(selected: Option<SelectedFile>) returns (alerted: bool)
      modifies this
      ensures alerted <==> selected.Some? && !SizeAllowed(selected.value.size)
      ensures file == if selected.Some? && SizeAllowed(selected.value.size) then selected else old(file)
      ensures loading == old(loading) && uploadProgress == old(uploadProgress)
      ensures resources == old(resources) && user == old(user) && intervalActive == old(intervalActive)
      ensures inFlight == old(inFlight)
    {
      alerted := false;
      if selected.Some? {
        if selected.value.size > 10 * 1024 * 1024 {
          alerted := true;
          return;
        }
        file := selected;
      }
    }

    /** The × next to the selected file. */
    method ClearSelection()
      modifies this
      ensures file.None?
      ensures loading == old(loading) && uploadProgress == old(uploadProgress)
      ensures resources == old(resources) && user == old(user) && intervalActive == old(intervalActive)
      ensures inFlight == old(inFlight)
    {
      file := None;
    }

    /** One firing of the progress interval; at 90 or more it also clears the
        interval. */
    method ProgressTick()
      modifies this
      ensures uploadProgress == ProgressStep(old(uploadProgress))
      ensures intervalActive == (old(intervalActive) && old(uploadProgress) < 90)
      ensures file == old(file) && loading == old(loading)
      ensures resources == old(resources) && user == old(user) && inFlight == old(inFlight)
    {
      if uploadProgress >= 90 {
        intervalActive := false;
        uploadProgress := 90;
      } else {
        uploadProgress := uploadProgress + 10;
      }
    }

    /** `handleUpload` up to its `await`: without a file or a user nothing
        happens; otherwise loading starts, the bar is set to 0, the progress
        timer is scheduled and the file and user of this click are captured.
        The selection itself stays, and other events may run before
        `FinishUpload`. */
    method StartUpload() returns (started: bool)
      modifies this
      ensures started <==> old(file).Some? && old(user).Some?
      ensures started ==>
                inFlight == Some(InFlight(old(file).value, old(user).value)) &&
                loading && uploadProgress == 0 && intervalActive
      ensures !started ==>
                inFlight == old(inFlight) && loading == old(loading) &&
                uploadProgress == old(uploadProgress) && intervalActive == old(intervalActive)
      ensures file == old(file) && resources == old(resources) && user == old(user)
    {
      if file.None? || user.None? {
        return false;
      }
      loading := true;
      uploadProgress := 0;
      intervalActive := true;
      inFlight := Some(InFlight(file.value, user.value));
      started := true;
    }

    /** `handleUpload` after its `await`: the timer is cleared, the bar jumps to
        100, the resource built from the CAPTURED file and user is put in front
        of the list and the selection is cleared, so a file picked during the
        wait is dropped without being uploaded. `lastShown` is the progress
        shown just before the jump. */
    method FinishUpload(id: string, now: int, url: string) returns (lastShown: int)
      requires inFlight.Some?
      modifies this
      ensures resources == [NewResource(old(inFlight).value.file, old(inFlight).value.uploader, id, now, url)] +
                           old(resources)
      ensures lastShown == old(uploadProgress)
      ensures file.None? && uploadProgress == 100 && !loading && !intervalActive && inFlight.None?
      ensures user == old(user)
    {
      lastShown := uploadProgress;
      intervalActive := false;
      uploadProgress := 100;
      var f := inFlight.value.file;
      var u := inFlight.value.uploader;
      var resourceData := Resource(id, f.name, f.name, url, f.size, f.mimeType, now, u.uid, SenderLabel(u));
      resources := [resourceData] + resources;
      file := None;
      inFlight := None;
      loading := false;
    }

    /** The whole of `handleUpload` when nothing else happens during the wait:
        the progress timer fires `ticks` times (fewer if it clears itself
        first) between `StartUpload` and `FinishUpload`. */
    method HandleUpload(id: string, now: int, url: string, ticks: nat) returns (uploaded: bool, lastShown: int)
      modifies this
      ensures uploaded <==> old(file).Some? && old(user).Some?
      ensures uploaded ==>
                resources == [NewResource(old(file).value, old(user).value, id, now, url)] + old(resources) &&
                file.None? && uploadProgress == 100 && !loading && !intervalActive && inFlight.None? &&
                lastShown == ProgressAfter(0, ticks) && 0 <= lastShown <= 90 && lastShown % 10 == 0
      ensures !uploaded ==>
                resources == old(resources) && file == old(file) && loading == old(loading) &&
                uploadProgress == old(uploadProgress) && intervalActive == old(intervalActive) &&
                inFlight == old(inFlight) && lastShown == old(uploadProgress)
      ensures user == old(user)
    {
      lastShown := uploadProgress;
      uploaded := StartUpload();
      if !uploaded {
        return;
      }
      var i := 0;
      while i < ticks && intervalActive
        invariant 0 <= i <= ticks
        invariant uploadProgress == ProgressAfter(0, i)
        invariant !intervalActive ==> uploadProgress == 90
        invariant inFlight == Some(InFlight(old(file).value, old(user).value))
        invariant user == old(user) && resources == old(resources)
      {
        ProgressFromZero(i);
        ProgressTick();
        i := i + 1;
      }
      ProgressFromZero(i);
      ProgressFromZero(ticks);
      lastShown := FinishUpload(id, now, url);
    }

    /** The timer one second after an upload: the bar goes back to 0. */
    method ResetProgress()
      modifies this
      ensures uploadProgress == 0
      ensures file == old(file) && loading == old(loading) && intervalActive == old(intervalActive)
      ensures resources == old(resources) && user == old(user) && inFlight == old(inFlight)
    {
      uploadProgress := 0;
    }

    /** `handleDelete`: with a user and a confirmed dialog every resource with
        that id is removed; otherwise nothing changes. The handler itself does
        not check the uploader: only the hidden button does. */
    method HandleDelete(resourceId: string, confirmed: bool)
      modifies this
      ensures resources == if old(user).Some? && confirmed then RemoveById(old(resources), resourceId)
                           else old(resources)
      ensures file == old(file) && loading == old(loading) && uploadProgress == old(uploadProgress)
      ensures user == old(user) && intervalActive == old(intervalActive) && inFlight == old(inFlight)
    {
      if user.None? {
        return;
      }
      if confirmed {
        resources := Filter(resources, KeepOtherIds(resourceId));
      }
    }
  }
}
