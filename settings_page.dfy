/**
 * The admin settings form of src/pages/SettingsPage.tsx: the logo upload
 * guard, logo removal, the Notion connection test's status, and the save that
 * turns empty fields into absent ones. The file picker, the FileReader and
 * the connection test are parameters: the picked file, the data URL the
 * reader produces, and how the test call came back.
 */
module SettingsPage {
  import opened Wrappers
  import opened Text
  import opened Types
  import LoginPage

  /** Only an admin sees the form; anyone else gets the "관리자만" notice (SettingsPage.tsx:35-47). */
  predicate CanOpen(user: Option<CurrentUser>) {
    user.Some? && user.value.teacher.isAdmin
  }

  /**
   * Nobody signed out opens the form, and a teacher who just signed in opens it exactly when
   * the login sent them to the admin dashboard.
   */
  lemma OpenAfterLogin(teachers: seq<Teacher>, selectedId: string, pin: string, loginAt: string)
    ensures !CanOpen(None)
    ensures var r := LoginPage.HandleLogin(teachers, selectedId, pin, loginAt);
            r.LoggedIn? ==> (CanOpen(Some(r.user)) <==> r.route == "/admin")
  {
  }

  // ---------------------------------------------------------------------
  // the form and what it saves

  /** The ten text boxes. */
  datatype Form = Form(
    academyName: string, academyLogo: string,
    notionApiKey: string, notionTeachersDb: string, notionStudentsDb: string, notionScoresDb: string,
    notionExamsDb: string,
    kakaoBizChannelId: string, kakaoBizSenderKey: string, kakaoBizTemplateId: string)

  /**
   * The object handed to `setAppSettings`: the same ten fields, each possibly absent. The
   * `AppSettings` interface of src/types/index.ts declares other fields; this is the shape
   * the page writes and reads.
   */
  datatype Saved = Saved(
    academyName: Option<string>, academyLogo: Option<string>,
    notionApiKey: Option<string>, notionTeachersDb: Option<string>, notionStudentsDb: Option<string>,
    notionScoresDb: Option<string>, notionExamsDb: Option<string>,
    kakaoBizChannelId: Option<string>, kakaoBizSenderKey: Option<string>, kakaoBizTemplateId: Option<string>)

  /** `value || undefined` on a string. */
  function OrUndefined(value: string): (o: Option<string>)
    ensures o.None? <==> value == ""
    ensures o.Some? ==> o.value == value
  {
    if value == "" then None else Some(value)
  }

  /** `setting || ''`, the form's initial value (SettingsPage.tsx:16-30). */
  function OrEmpty(o: Option<string>): string {
    o.GetOr("")
  }

  function FormFields(f: Form): seq<string> {
    [f.academyName, f.academyLogo, f.notionApiKey, f.notionTeachersDb, f.notionStudentsDb,
     f.notionScoresDb, f.notionExamsDb, f.kakaoBizChannelId, f.kakaoBizSenderKey, f.kakaoBizTemplateId]
  }

  function SavedFields(s: Saved): seq<Option<string>> {
    [s.academyName, s.academyLogo, s.notionApiKey, s.notionTeachersDb, s.notionStudentsDb,
     s.notionScoresDb, s.notionExamsDb, s.kakaoBizChannelId, s.kakaoBizSenderKey, s.kakaoBizTemplateId]
  }

  /** `handleSave` (SettingsPage.tsx:111-126): every empty box becomes absent, every other is kept as typed. */
  function HandleSave(f: Form): (s: Saved)
    ensures |SavedFields(s)| == |FormFields(f)| == 10
    ensures forall i :: 0 <= i < 10 ==> (SavedFields(s)[i].None? <==> FormFields(f)[i] == "")
    ensures forall i :: 0 <= i < 10 && FormFields(f)[i] != "" ==> SavedFields(s)[i] == Some(FormFields(f)[i])
  {
    Saved(OrUndefined(f.academyName), OrUndefined(f.academyLogo), OrUndefined(f.notionApiKey),
          OrUndefined(f.notionTeachersDb), OrUndefined(f.notionStudentsDb), OrUndefined(f.notionScoresDb),
          OrUndefined(f.notionExamsDb), OrUndefined(f.kakaoBizChannelId), OrUndefined(f.kakaoBizSenderKey),
          OrUndefined(f.kakaoBizTemplateId))
  }

  /** Opening the page on saved settings fills in the boxes. */
  function Load(s: Saved): (f: Form)
    ensures forall i :: 0 <= i < 10 ==> FormFields(f)[i] == OrEmpty(SavedFields(s)[i])
  {
    Form(OrEmpty(s.academyName), OrEmpty(s.academyLogo), OrEmpty(s.notionApiKey), OrEmpty(s.notionTeachersDb),
         OrEmpty(s.notionStudentsDb), OrEmpty(s.notionScoresDb), OrEmpty(s.notionExamsDb),
         OrEmpty(s.kakaoBizChannelId), OrEmpty(s.kakaoBizSenderKey), OrEmpty(s.kakaoBizTemplateId))
  }

  /** Saving and reopening shows the form exactly as it was saved. */
  lemma SaveThenLoad(f: Form)
    ensures Load(HandleSave(f)) == f
  {
  }

  /** No saved field is ever the empty string. */
  predicate NoEmptyValue(s: Saved) {
    forall i :: 0 <= i < 10 ==> SavedFields(s)[i] != Some("")
  }

  /**
   * Reopening and saving again leaves saved settings as they were, provided none is the empty
   * string; a saved `""` comes back absent.
   */
  lemma LoadThenSave(s: Saved)
    ensures NoEmptyValue(HandleSave(Load(s)))
    ensures HandleSave(Load(s)) == s <==> NoEmptyValue(s)
  {
    var t := HandleSave(Load(s));
    if NoEmptyValue(s) {
      assert forall i :: 0 <= i < 10 ==> SavedFields(t)[i] == SavedFields(s)[i];
      assert SavedFields(t) == SavedFields(s);
    } else {
      var i :| 0 <= i < 10 && SavedFields(s)[i] == Some("");
      assert SavedFields(t)[i].None?;
    }
  }

  // ---------------------------------------------------------------------
  // the logo

  /** The picked file: its MIME type, its size in bytes, and the data URL the reader yields for it. */
  datatype File = File(mime: string, size: nat, dataUrl: string)

  const MaxLogoBytes: nat := 500 * 1024

  datatype UploadResult = UploadResult(logo: string, alert: Option<string>)

  /**
   * `handleLogoUpload` (SettingsPage.tsx:51-71): no file changes nothing; a non-image type and a
   * file over 500 KB are refused with their alerts; anything else becomes the logo's data URL.
   */
  function HandleLogoUpload(logo: string, file: Option<File>): (r: UploadResult)
    ensures file.None? ==> r == UploadResult(logo, None)
    ensures file.Some? && !StartsWith(file.value.mime, "image/") ==>
              r == UploadResult(logo, Some("이미지 파일만 업로드할 수 있습니다."))
    ensures file.Some? && StartsWith(file.value.mime, "image/") && file.value.size > 512000 ==>
              r == UploadResult(logo, Some("파일 크기는 500KB 이하여야 합니다."))
    ensures file.Some? && StartsWith(file.value.mime, "image/") && file.value.size <= 512000 ==>
              r == UploadResult(file.value.dataUrl, None)
    ensures r.logo != logo ==> file.Some? && r.logo == file.value.dataUrl && r.alert.None?
  {
    match file
    case None => UploadResult(logo, None)
    case Some(f) =>
      if !StartsWith(f.mime, "image/") then UploadResult(logo, Some("이미지 파일만 업로드할 수 있습니다."))
      else if f.size > MaxLogoBytes then UploadResult(logo, Some("파일 크기는 500KB 이하여야 합니다."))
      else UploadResult(f.dataUrl, None)
  }

  /** The size limit is inclusive: 512000 bytes pass, one more byte is refused. */
  lemma SizeBoundary(logo: string, mime: string, dataUrl: string)
    requires StartsWith(mime, "image/")
    ensures HandleLogoUpload(logo, Some(File(mime, 512000, dataUrl))) == UploadResult(dataUrl, None)
    ensures HandleLogoUpload(logo, Some(File(mime, 512001, dataUrl))).logo == logo
  {
  }

  /**
   * `handleRemoveLogo` (SettingsPage.tsx:73-78): the logo is emptied, and so is the file input
   * when it is mounted.
   */
  function HandleRemoveLogo(f: Form, fileInput: Option<string>): (r: (Form, Option<string>))
    ensures r.0 == f.(academyLogo := "")
    ensures r.1 == if fileInput.Some? then Some("") else None
  {
    (f.(academyLogo := ""), if fileInput.Some? then Some("") else None)
  }

  /** A removed logo is saved as absent. */
  lemma RemovedLogoNotSaved(f: Form, fileInput: Option<string>)
    ensures HandleSave(HandleRemoveLogo(f, fileInput).0).academyLogo.None?
  {
  }

  // ---------------------------------------------------------------------
  // the connection test

  datatype ConnectionStatus = Idle | Testing | Passed | Errored  // 'idle' | 'testing' | 'success' | 'error'

  datatype Connection = Connection(status: ConnectionStatus, message: string)

  /** How `testNotionConnection` came back: a result object, or by throwing. */
  datatype TestOutcome = Returned(success: bool, message: string) | Threw

  /** The database ids the test is given. */
  datatype DbIds = DbIds(teachers: string, students: string, scores: string, exams: string)

  datatype TestStep = TestStep(request: Option<(string, DbIds)>, during: Option<Connection>, after: Connection)

  /**
   * `handleTestConnection` (SettingsPage.tsx:80-109): without an API key the status is an error
   * and no test runs; otherwise "testing" is shown during the call, and the result's own flag
   * and message, or a fixed message on an exception, are shown after it.
   */
  function HandleTestConnection(f: Form, outcome: TestOutcome): (r: TestStep)
    ensures f.notionApiKey == "" ==>
              r.request.None? && r.during.None? && r.after == Connection(Errored, "API Key를 입력해주세요.")
    ensures f.notionApiKey != "" ==>
              && r.request == Some((f.notionApiKey, DbIds(f.notionTeachersDb, f.notionStudentsDb,
                                                          f.notionScoresDb, f.notionExamsDb)))
              && r.during == Some(Connection(Testing, "연결 테스트 중..."))
    ensures f.notionApiKey != "" && outcome.Returned? ==>
              r.after == Connection(if outcome.success then Passed else Errored, outcome.message)
    ensures f.notionApiKey != "" && outcome.Threw? ==>
              r.after == Connection(Errored, "연결 테스트 중 오류가 발생했습니다.")
  {
    if f.notionApiKey == "" then TestStep(None, None, Connection(Errored, "API Key를 입력해주세요."))
    else
      var request := (f.notionApiKey, DbIds(f.notionTeachersDb, f.notionStudentsDb, f.notionScoresDb, f.notionExamsDb));
      var after := match outcome
                   case Returned(ok, msg) => Connection(if ok then Passed else Errored, msg)
                   case Threw => Connection(Errored, "연결 테스트 중 오류가 발생했습니다.");
      TestStep(Some(request), Some(Connection(Testing, "연결 테스트 중...")), after)
  }

  /** The test ends in success exactly when a key was given and the service said so. */
  lemma TestSucceedsIff(f: Form, outcome: TestOutcome)
    ensures HandleTestConnection(f, outcome).after.status == Passed <==>
            f.notionApiKey != "" && outcome.Returned? && outcome.success
    ensures HandleTestConnection(f, outcome).after.status != Idle &&
            HandleTestConnection(f, outcome).after.status != Testing
  {
  }
}
