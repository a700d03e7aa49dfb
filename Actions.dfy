/** The deck server actions (app/actions.js): `createDeck` builds one row of the
    `decks` table from the submitted form, after an optional upload of the resume
    file and a best-effort text extraction; `deleteDeck` soft-deletes one of the
    caller's decks. The auth provider, the storage upload, the PDF text
    extraction, the clock and the store's insert error are parameters. */
module Actions {
  import opened Js
  import opened Records

  /** The `resume_file` form entry: a browser File. */
  datatype UploadFile = UploadFile(name: string, size: nat)

  /** The entries of the submitted form; a missing entry is `None`. */
  datatype DeckForm = DeckForm(
    resumeFile: Option<UploadFile>,
    coverLetter: Option<string>,
    company: Option<string>,
    slug: Option<string>,
    isPublic: Option<string>,
    emailAlias: Option<string>)

  /** What `createDeck` returns: `undefined` on success, `{error: true, message}` otherwise. */
  datatype ActionResult = Done | Failed(message: string)

  /** `name.split('.').pop()`: the text after the last `.` of the file name, or
      the whole name when it has no dot. */
  function FileExtension(name: string): (ext: string)
    ensures '.' !in ext
    ensures EndsWith(name, ext)
    ensures ext == name || name[|name| - |ext| - 1] == '.'
    ensures ext == name <==> '.' !in name
    decreases |name|
  {
    if name == [] then []
    else if name[|name| - 1] == '.' then []
    else
      var init := name[..|name| - 1];
      var ext := FileExtension(init) + [name[|name| - 1]];
      assert name == init + [name[|name| - 1]];
      assert '.' in name <==> '.' in init;
      ext
  }

  /** The extension is whatever follows the last dot, however many dots the
      name has before it. */
  lemma {:induction false} ExtensionAfterLastDot(base: string, ext: string)
    requires '.' !in ext
    ensures FileExtension(base + "." + ext) == ext
    decreases |ext|
  {
    var name := base + "." + ext;
    if ext != [] {
      var init := ext[..|ext| - 1];
      assert name[..|name| - 1] == base + "." + init;
      assert name[|name| - 1] == ext[|ext| - 1];
      ExtensionAfterLastDot(base, init);
      assert ext == init + [ext[|ext| - 1]];
    }
  }

  /** `${user.id}/${Date.now()}.${fileExt}` */
  function StoragePath(userId: string, nowMs: nat, fileName: string): (path: string)
    ensures StartsWith(path, userId + "/")
    ensures EndsWith(path, "." + FileExtension(fileName))
  {
    var path := userId + "/" + NatToString(nowMs) + "." + FileExtension(fileName);
    assert path[..|userId| + 1] == userId + "/";
    assert path[|path| - |FileExtension(fileName)| - 1..] == "." + FileExtension(fileName);
    path
  }

  /** In `{digits}.{rest}` the first dot is the one right after the digits. */
  lemma FirstDotEndsDigits(d: string, rest: string)
    requires forall k :: 0 <= k < |d| ==> IsDigit(d[k])
    ensures IndexOf(d + "." + rest, ".") == Some(|d|)
  {
    var s := d + "." + rest;
    assert s[|d|..|d| + 1] == ".";
    assert IsAt(s, ".", |d|);
    forall j: nat | j < |d| ensures !IsAt(s, ".", j) {
      assert s[j..j + 1] == [d[j]];
    }
    var i := IndexOf(s, ".").value;
    assert i <= |d|;
  }

  lemma StampDetermined(d1: string, e1: string, d2: string, e2: string)
    requires forall k :: 0 <= k < |d1| ==> IsDigit(d1[k])
    requires forall k :: 0 <= k < |d2| ==> IsDigit(d2[k])
    requires d1 + "." + e1 == d2 + "." + e2
    ensures d1 == d2
  {
    FirstDotEndsDigits(d1, e1);
    FirstDotEndsDigits(d2, e2);
    var s := d1 + "." + e1;
    assert s[..|d1|] == d1;
    assert (d2 + "." + e2)[..|d2|] == d2;
  }

  /** Two uploads of the same user at different milliseconds never share a
      storage path, whatever the file names: the stamp is all digits, so the
      first dot after the folder ends it. */
  lemma StoragePathsDistinct(userId: string, t1: nat, t2: nat, name1: string, name2: string)
    requires t1 != t2
    ensures StoragePath(userId, t1, name1) != StoragePath(userId, t2, name2)
  {
    var d1, d2 := NatToString(t1), NatToString(t2);
    var s1 := d1 + "." + FileExtension(name1);
    var s2 := d2 + "." + FileExtension(name2);
    var prefix := userId + "/";
    assert StoragePath(userId, t1, name1) == prefix + s1;
    assert StoragePath(userId, t2, name2) == prefix + s2;
    assert (prefix + s1)[|prefix|..] == s1 && (prefix + s2)[|prefix|..] == s2;
    if s1 == s2 {
      StampDetermined(d1, FileExtension(name1), d2, FileExtension(name2));
      NatToStringInjective(t1, t2);
    }
  }

  /** `file && file.size > 0` */
  predicate HasUpload(form: DeckForm) {
    form.resumeFile.Some? && form.resumeFile.value.size > 0
  }

  /** The `resume_url` column: the storage path when a non-empty file came with the form. */
  function ResumePath(user: User, form: DeckForm, nowMs: nat): (path: Option<string>)
    ensures path.Some? <==> HasUpload(form)
    ensures path.Some? ==> StartsWith(path.value, user.id + "/")
  {
    if HasUpload(form) then Some(StoragePath(user.id, nowMs, form.resumeFile.value.name)) else None
  }

  /** The `resume_body` column: the extracted text, or "" when there was no file
      or the extraction threw (`pdfText == None`). */
  function ResumeText(form: DeckForm, pdfText: Option<string>): (text: string)
    ensures text != "" ==> HasUpload(form) && pdfText == Some(text)
    ensures HasUpload(form) && pdfText.Some? ==> text == pdfText.value
  {
    if HasUpload(form) && pdfText.Some? then pdfText.value else ""
  }

  /** The row `createDeck` inserts. */
  function NewDeckRow(user: User, form: DeckForm, resumePath: Option<string>, text: string,
                      id: string, createdAt: int): (row: DeckRow)
    ensures row.isPublic <==> form.isPublic == Some("on")
    ensures row.trackingEmail == OrElse(form.emailAlias, user.email)
    ensures row.coverLetter == Some(CoverLetter(form.coverLetter))
    ensures row.userId == user.id && row.deletedAt.None?
    ensures row.company == form.company && row.slug == form.slug
    ensures row.resumeUrl == resumePath && row.resumeBody == text
  {
    DeckRow(
      id := id,
      userId := user.id,
      company := form.company,
      slug := form.slug,
      coverLetter := Some(CoverLetter(form.coverLetter)),
      resumeUrl := resumePath,
      resumeBody := text,
      isPublic := form.isPublic == Some("on"),
      trackingEmail := OrElse(form.emailAlias, user.email),
      createdAt := createdAt,
      deletedAt := None)
  }

  /** The effect of `update({deleted_at}).eq("id", id).eq("user_id", userId)`:
      exactly the rows matching both get `deletedAt`, nothing else changes. */
  function SoftDelete(rows: seq<DeckRow>, id: string, userId: string, now: string): (r: seq<DeckRow>)
    ensures |r| == |rows|
    ensures forall i :: 0 <= i < |rows| ==>
              r[i] == if rows[i].id == id && rows[i].userId == userId
                      then rows[i].(deletedAt := Some(now)) else rows[i]
    decreases |rows|
  {
    if rows == [] then []
    else
      var head := if rows[0].id == id && rows[0].userId == userId
                  then rows[0].(deletedAt := Some(now)) else rows[0];
      var rest := SoftDelete(rows[1..], id, userId, now);
      assert forall i :: 1 <= i < |rows| ==> rows[i] == rows[1..][i - 1];
      [head] + rest
  }

  /** The `decks` table and the `resumes` storage bucket. */
  class DeckStore {
    var rows: seq<DeckRow>
    var objects: set<string>

    constructor(initial: seq<DeckRow>)
      ensures rows == initial && objects == {}
    {
      rows := initial;
      objects := {};
    }

    /** `createDeck(formData)`. Without a user nothing happens; a failed upload
        returns before the insert; a failed extraction is swallowed; the insert
        adds exactly one row at the end and touches no existing row (in
        particular no other deck's `is_public`). An upload followed by a failed
        insert leaves the uploaded object behind. */
    method CreateDeck(user: Option<User>, form: DeckForm, nowMs: nat, uploadOk: bool,
                      pdfText: Option<string>, insertError: Option<string>,
                      newId: string, createdAt: int) returns (r: ActionResult)
      modifies this
      ensures user.None? ==>
                r == Failed("Unauthorized") && rows == old(rows) && objects == old(objects)
      ensures user.Some? && HasUpload(form) && !uploadOk ==>
                r == Failed("Upload failed") && rows == old(rows) && objects == old(objects)
      ensures user.Some? && (HasUpload(form) ==> uploadOk) ==>
                var path := ResumePath(user.value, form, nowMs);
                && objects == old(objects) + (if path.Some? then {path.value} else {})
                && (insertError.Some? ==> r == Failed(insertError.value) && rows == old(rows))
                && (insertError.None? ==>
                      r == Done &&
                      rows == old(rows) + [NewDeckRow(user.value, form, path, ResumeText(form, pdfText),
                                                      newId, createdAt)])
    {
      if user.None? {
        return Failed("Unauthorized");
      }
      var u := user.value;
      var resumePath: Option<string> := None;
      var extractedText := "";
      if form.resumeFile.Some? && form.resumeFile.value.size > 0 {
        var path := StoragePath(u.id, nowMs, form.resumeFile.value.name);
        resumePath := Some(path);
        if !uploadOk {
          return Failed("Upload failed");
        }
        objects := objects + {path};
        if pdfText.Some? {
          extractedText := pdfText.value;
        }
      }
      if insertError.Some? {
        return Failed(insertError.value);
      }
      rows := rows + [NewDeckRow(u, form, resumePath, extractedText, newId, createdAt)];
      r := Done;
    }

    /** `deleteDeck(id)`: soft delete scoped by id and owner; nothing happens
        without a user. The update's error is ignored: a failed update leaves
        the table as it was and the action still returns normally. */
    method DeleteDeck(user: Option<User>, id: string, now: string, updateFails: bool)
      modifies this`rows
      ensures user.None? || updateFails ==> rows == old(rows)
      ensures user.Some? && !updateFails ==> rows == SoftDelete(old(rows), id, user.value.id, now)
    {
      if user.None? || updateFails {
        return;
      }
      rows := SoftDelete(rows, id, user.value.id, now);
    }
  }
}
