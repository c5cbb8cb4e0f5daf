/**
 * The upload rules of the profile controller: the file extension it keeps
 * (`SafeExt`), the content types it accepts for a resume and for a university
 * proof, the size limits, and the four profile columns that an upload fills and
 * a delete clears. A student profile is an object whose document columns the
 * endpoints assign in place; storing the bytes, the user and role checks and the
 * clock are outside the model (`now` and the generated file token are parameters).
 */
module Profiles {
  import opened Wrappers
  import opened Text

  // ------------------------------------------------------------------ extensions

  /** The part of a path after its last `/`: the file name `Path.GetExtension` scans. */
  function FileNamePart(path: string): (r: string)
    ensures forall j :: 0 <= j < |r| ==> r[j] != '/'
  {
    path[LastIndexOf(path, '/') + 1..]
  }

  /** An extension: empty, or a `.` followed by at least one character, none of them `.` or `/`. */
  predicate IsExtension(ext: string) {
    (ext == [] || (|ext| >= 2 && ext[0] == '.')) &&
    forall j :: 0 <= j < |ext| ==> ext[j] != '/' && (j >= 1 ==> ext[j] != '.')
  }

  lemma ExtensionFrom(name: string, d: int)
    requires 0 <= d < |name| - 1 && name[d] == '.'
    requires forall j :: d < j < |name| ==> name[j] != '.'
    requires forall j :: 0 <= j < |name| ==> name[j] != '/'
    ensures IsExtension(name[d..])
  {
    var ext := name[d..];
    forall j | 0 <= j < |ext| ensures ext[j] != '/' && (j >= 1 ==> ext[j] != '.') {
      assert ext[j] == name[d + j];
    }
  }

  /**
   * `Path.GetExtension`: from the last `.` of the file name to its end, or "" when
   * the name has no `.` or ends with it (`/` is the directory separator).
   */
  function GetExtension(path: string): (ext: string)
    ensures IsExtension(ext)
  {
    var name := FileNamePart(path);
    var d := LastIndexOf(name, '.');
    if d < 0 || d == |name| - 1 then []
    else
      ExtensionFrom(name, d);
      name[d..]
  }

  const MaxExtensionLength: int := 12

  /** `SafeExt`: the extension, or "" when there is none or it is longer than 12 characters. */
  function SafeExt(fileName: string): (ext: string)
    ensures |ext| <= MaxExtensionLength
    ensures ext == GetExtension(fileName) || ext == []
    ensures ext == [] <==> GetExtension(fileName) == [] || |GetExtension(fileName)| > MaxExtensionLength
  {
    var ext := GetExtension(fileName);
    if IsBlank(ext) then [] else if |ext| > MaxExtensionLength then [] else ext
  }

  /** Appending text without `c` does not move the last `c`. */
  lemma {:induction false} LastIndexOfAppend(a: string, b: string, c: char)
    requires forall j :: 0 <= j < |b| ==> b[j] != c
    ensures LastIndexOf(a + b, c) == LastIndexOf(a, c)
    decreases |b|
  {
    if b == [] {
      assert a + b == a;
    } else {
      var b' := b[..|b| - 1];
      assert (a + b)[..|a + b| - 1] == a + b';
      LastIndexOfAppend(a, b', c);
    }
  }

  /** A name ending in `.` and a short word without dots or slashes keeps exactly that extension. */
  lemma SafeExtOfName(stem: string, word: string)
    requires forall j :: 0 <= j < |word| ==> word[j] != '.' && word[j] != '/'
    requires 1 <= |word| < MaxExtensionLength
    ensures SafeExt(stem + ['.'] + word) == ['.'] + word
  {
    var path := stem + ['.'] + word;
    var x := FileNameOf(stem, word);
    var name := x + ['.'] + word;
    LastDotOf(x, word);
    assert name[|x|..] == ['.'] + word;
    assert GetExtension(path) == ['.'] + word;
    assert !IsSpace((['.'] + word)[0]);
  }

  /** The file name of such a path is the last part of the stem, the dot and the word. */
  lemma FileNameOf(stem: string, word: string) returns (x: string)
    requires forall j :: 0 <= j < |word| ==> word[j] != '/'
    ensures FileNamePart(stem + ['.'] + word) == x + ['.'] + word
  {
    var tail := ['.'] + word;
    TailNoSlash(word);
    LastIndexOfAppend(stem, tail, '/');
    var path := stem + tail;
    assert stem + ['.'] + word == path;
    var d := LastIndexOf(stem, '/');
    x := stem[d + 1..];
    assert path[d + 1..] == x + tail;
    assert x + ['.'] + word == x + tail;
  }

  lemma TailNoSlash(word: string)
    requires forall j :: 0 <= j < |word| ==> word[j] != '/'
    ensures forall j :: 0 <= j < |['.'] + word| ==> (['.'] + word)[j] != '/'
  {
    var tail := ['.'] + word;
    forall j | 0 <= j < |tail| ensures tail[j] != '/' {
      if j > 0 {
        assert tail[j] == word[j - 1];
      }
    }
  }

  /** The last `.` of `x . word` is the one before the word. */
  lemma LastDotOf(x: string, word: string)
    requires forall j :: 0 <= j < |word| ==> word[j] != '.'
    ensures LastIndexOf(x + ['.'] + word, '.') == |x|
  {
    LastIndexOfAppend(x + ['.'], word, '.');
    assert (x + ['.'])[..|x + ['.']| - 1] == x;
  }

  // ------------------------------------------------------------------ content types

  const PdfMime: string := "application/pdf"
  const WordMime: string := "application/msword"
  const DocxMime: string := "application/vnd.openxmlformats-officedocument.wordprocessingml.document"

  /** `IsAllowedResumeType`: a PDF or Word content type, or a .pdf/.doc/.docx extension in any case. */
  predicate IsAllowedResumeType(contentType: string, ext: string) {
    contentType == PdfMime || contentType == WordMime || contentType == DocxMime ||
    EqualsIgnoreCase(ext, ".pdf") || EqualsIgnoreCase(ext, ".doc") || EqualsIgnoreCase(ext, ".docx")
  }

  /** `IsAllowedProofType`: an image or PDF content type, or a .pdf/.png/.jpg/.jpeg extension in any case. */
  predicate IsAllowedProofType(contentType: string, ext: string) {
    StartsWith(contentType, "image/") || contentType == PdfMime ||
    EqualsIgnoreCase(ext, ".pdf") || EqualsIgnoreCase(ext, ".png") ||
    EqualsIgnoreCase(ext, ".jpg") || EqualsIgnoreCase(ext, ".jpeg")
  }

  lemma LowerOfExtensions()
    ensures Lower(".pdf") == ".pdf" && Lower(".doc") == ".doc" && Lower(".docx") == ".docx"
    ensures Lower(".png") == ".png" && Lower(".jpg") == ".jpg" && Lower(".jpeg") == ".jpeg"
  {
    LowerUnchanged(".pdf");
    LowerUnchanged(".doc");
    LowerUnchanged(".docx");
    LowerUnchanged(".png");
    LowerUnchanged(".jpg");
    LowerUnchanged(".jpeg");
  }

  /** The extension tests compare the lower-cased extension with lower-case names. */
  lemma AllowedTypesRules(contentType: string, ext: string)
    ensures IsAllowedResumeType(contentType, ext) <==>
      contentType == PdfMime || contentType == WordMime || contentType == DocxMime ||
      Lower(ext) == ".pdf" || Lower(ext) == ".doc" || Lower(ext) == ".docx"
    ensures IsAllowedProofType(contentType, ext) <==>
      StartsWith(contentType, "image/") || contentType == PdfMime ||
      Lower(ext) == ".pdf" || Lower(ext) == ".png" || Lower(ext) == ".jpg" || Lower(ext) == ".jpeg"
  {
    LowerOfExtensions();
  }

  /** A file SafeExt leaves without an extension is judged by its content type alone. */
  lemma NoExtensionMeansContentType(contentType: string, fileName: string)
    requires SafeExt(fileName) == []
    ensures IsAllowedResumeType(contentType, SafeExt(fileName)) <==>
      contentType == PdfMime || contentType == WordMime || contentType == DocxMime
    ensures IsAllowedProofType(contentType, SafeExt(fileName)) <==>
      StartsWith(contentType, "image/") || contentType == PdfMime
  {
    AllowedTypesRules(contentType, []);
    assert Lower([]) == [];
  }

  /** A file named `<stem>.pdf`, in any capitalisation, is a valid document of either kind whatever its content type. */
  lemma PdfWord(word: string)
    requires Lower(word) == "pdf"
    ensures forall i :: 0 <= i < |word| ==> word[i] != '.' && word[i] != '/'
    ensures Lower(['.'] + word) == ".pdf"
  {
    forall i | 0 <= i < |word| ensures word[i] != '.' && word[i] != '/' {
      assert Lower(word)[i] == LowerChar(word[i]);
    }
    LowerAppend(['.'], word);
    LowerUnchanged(['.']);
  }

  lemma PdfAcceptedForBoth(contentType: string, stem: string, word: string)
    requires Lower(word) == "pdf"
    ensures IsAllowedResumeType(contentType, SafeExt(stem + ['.'] + word))
    ensures IsAllowedProofType(contentType, SafeExt(stem + ['.'] + word))
  {
    PdfWord(word);
    SafeExtOfName(stem, word);
    AllowedTypesRules(contentType, ['.'] + word);
  }

  // ------------------------------------------------------------------ uploads

  const MaxUploadBytes: int := 10 * 1024 * 1024

  datatype DocumentKind = Resume | UniversityProof

  /** The form file: its name, its content type (null is `None`) and its length in bytes. */
  datatype Upload = Upload(fileName: string, contentType: Option<string>, length: int)

  datatype UploadError = NoFile | TooLarge | WrongType

  predicate IsAllowedType(kind: DocumentKind, contentType: string, ext: string) {
    match kind
    case Resume => IsAllowedResumeType(contentType, ext)
    case UniversityProof => IsAllowedProofType(contentType, ext)
  }

  /** The checks of an upload endpoint, in order: present and non-empty, at most 10 MiB, an allowed type. */
  function CheckUpload(kind: DocumentKind, file: Option<Upload>): Option<UploadError> {
    if file.None? || file.value.length == 0 then Some(NoFile)
    else if file.value.length > MaxUploadBytes then Some(TooLarge)
    else if !IsAllowedType(kind, file.value.contentType.GetOr(""), SafeExt(file.value.fileName)) then Some(WrongType)
    else None
  }

  /**
   * A missing or empty file is refused first, then a file over 10·1024·1024 bytes;
   * a file of an allowed type is accepted exactly when its length is between 1
   * byte and 10 MiB inclusive.
   */
  lemma UploadSizeRules(kind: DocumentKind, file: Option<Upload>)
    ensures file.None? || file.value.length == 0 ==> CheckUpload(kind, file) == Some(NoFile)
    ensures file.Some? && file.value.length > MaxUploadBytes ==> CheckUpload(kind, file) == Some(TooLarge)
    ensures file.Some? && IsAllowedType(kind, file.value.contentType.GetOr(""), SafeExt(file.value.fileName)) ==>
      (CheckUpload(kind, file).None? <==> 1 <= file.value.length <= MaxUploadBytes || file.value.length < 0)
    ensures file.Some? && file.value.length == MaxUploadBytes ==> CheckUpload(kind, file) != Some(TooLarge)
  {
    assert MaxUploadBytes == 10485760;
  }

  // ------------------------------------------------------------------ the profile row

  /** The four columns of one uploaded document. */
  datatype Attachment = Attachment(fileName: Option<string>, originalFileName: Option<string>, contentType: Option<string>, uploadedAt: Option<int>)

  const NoAttachment: Attachment := Attachment(None, None, None, None)

  /** `!string.IsNullOrEmpty(FileName)`: the profile records a stored document. */
  predicate HasDocument(a: Attachment) { a.fileName.Some? && a.fileName.value != "" }

  function Prefix(kind: DocumentKind): string {
    match kind
    case Resume => "resume"
    case UniversityProof => "university_proof"
  }

  /** `SaveFileAsync`'s stored name: the kind's prefix, `_`, the generated token and the safe extension. */
  function StoredName(kind: DocumentKind, token: string, fileName: string): (r: string)
    ensures |r| == |Prefix(kind)| + 1 + |token| + |SafeExt(fileName)|
    ensures r[..|Prefix(kind)| + 1] == Prefix(kind) + "_"
    ensures r[|Prefix(kind)| + 1..|r| - |SafeExt(fileName)|] == token
    ensures r[|r| - |SafeExt(fileName)|..] == SafeExt(fileName)
  {
    var head := Prefix(kind) + "_";
    var ext := SafeExt(fileName);
    var r := head + token + ext;
    assert r[..|head|] == head;
    assert r[|head|..|head| + |token|] == token;
    assert r[|head| + |token|..] == ext;
    r
  }

  /** The other columns of the profile, which these endpoints never assign. */
  datatype ProfileDetails = ProfileDetails(
    fullName: Option<string>, university: Option<string>, major: Option<string>, bio: Option<string>,
    portfolioUrl: Option<string>, location: Option<string>, phoneNumber: Option<string>,
    educationText: Option<string>, experienceText: Option<string>, projectsText: Option<string>,
    interestsText: Option<string>, certificationsText: Option<string>, awardsText: Option<string>,
    createdAt: int, updatedAt: Option<int>)

  datatype DeleteOutcome = NoDocument | Deleted

  /** A StudentProfiles row. */
  class StudentProfile {
    const userId: string
    var details: ProfileDetails
    var resume: Attachment
    var universityProof: Attachment

    function Document(kind: DocumentKind): Attachment
      reads this
    {
      match kind
      case Resume => resume
      case UniversityProof => universityProof
    }

    constructor (userId: string, now: int)
      ensures this.userId == userId && resume == NoAttachment && universityProof == NoAttachment
      ensures details == ProfileDetails(None, None, None, None, None, None, None, None, None, None, None, None, None, now, None)
    {
      this.userId := userId;
      details := ProfileDetails(None, None, None, None, None, None, None, None, None, None, None, None, None, now, None);
      resume := NoAttachment;
      universityProof := NoAttachment;
    }

    /**
     * An upload endpoint after the user checks: a refused file changes nothing;
     * an accepted one sets exactly the four columns of its kind.
     */
    method UploadDocument(kind: DocumentKind, file: Option<Upload>, token: string, now: int) returns (error: Option<UploadError>)
      modifies this
      ensures error == CheckUpload(kind, file)
      ensures error.Some? ==> unchanged(this)
      ensures error.None? ==> (file.Some? &&
        Document(kind) == Attachment(Some(StoredName(kind, token, file.value.fileName)), Some(file.value.fileName),
                                     file.value.contentType, Some(now)) &&
        HasDocument(Document(kind)))
      ensures error.None? ==> (details == old(details) &&
        (kind == Resume ==> universityProof == old(universityProof)) &&
        (kind == UniversityProof ==> resume == old(resume)))
    {
      error := CheckUpload(kind, file);
      if error.Some? {
        return;
      }
      var f := file.value;
      SetDocument(kind, Attachment(Some(StoredName(kind, token, f.fileName)), Some(f.fileName), f.contentType, Some(now)));
    }

    /** Assigns the four columns of one kind of document. */
    method SetDocument(kind: DocumentKind, a: Attachment)
      modifies this
      ensures Document(kind) == a && details == old(details)
      ensures kind == Resume ==> universityProof == old(universityProof)
      ensures kind == UniversityProof ==> resume == old(resume)
    {
      match kind {
        case Resume => resume := a;
        case UniversityProof => universityProof := a;
      }
    }

    /**
     * A delete endpoint after the user checks: with no stored document nothing
     * changes; otherwise exactly the four columns of its kind become null.
     */
    method DeleteDocument(kind: DocumentKind) returns (outcome: DeleteOutcome)
      modifies this
      ensures outcome == Deleted <==> old(HasDocument(Document(kind)))
      ensures outcome == NoDocument ==> unchanged(this)
      ensures outcome == Deleted ==> (Document(kind) == NoAttachment && details == old(details) &&
        (kind == Resume ==> universityProof == old(universityProof)) &&
        (kind == UniversityProof ==> resume == old(resume)))
    {
      if !HasDocument(Document(kind)) {
        return NoDocument;
      }
      match kind {
        case Resume => resume := NoAttachment;
        case UniversityProof => universityProof := NoAttachment;
      }
      outcome := Deleted;
    }
  }

  /**
   * A client scenario, not an endpoint: uploading and then deleting a document leaves the
   * profile without one, the other kind untouched.
   */
  method UploadThenDelete(p: StudentProfile, kind: DocumentKind, file: Upload, token: string, now: int)
    returns (error: Option<UploadError>, outcome: DeleteOutcome)
    requires CheckUpload(kind, Some(file)).None?
    modifies p
    ensures error.None? && outcome == Deleted
    ensures p.Document(kind) == NoAttachment && p.details == old(p.details)
    ensures kind == Resume ==> p.universityProof == old(p.universityProof)
    ensures kind == UniversityProof ==> p.resume == old(p.resume)
  {
    error := p.UploadDocument(kind, Some(file), token, now);
    outcome := p.DeleteDocument(kind);
  }
}
