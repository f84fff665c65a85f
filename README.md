# Monthly student report: a Dafny model

The application is a React front end that an academy uses to collect monthly test scores,
preview each student's report, send it through KakaoTalk and export it as PDF. This project
models the parts of it that carry statable logic, and proves properties of those models:

- the Kakao token store (`src/services/kakao.ts`): three module variables mirrored into
  localStorage, token refresh, restore-on-load, logout, the memo sender, and the popup login as
  an event machine;
- the A4 paginator and download helpers (`src/services/pdf.ts`);
- the zustand report store (`src/stores/reportStore.ts`);
- the logic inside the pages: admin dashboard, exam schedule, teacher score sheet, single-student
  input form, login, preview, send-to-myself, and settings.

Stateful parts are classes whose methods are proved against pure functions of the old state.
These are the token store, the report store, and the page handlers that step through state.
The properties are then proved as lemmas about those functions:

- `Kakao.TokenStore` and `ReportStore.Store`;
- the page screens: `AdminPage.AdminScreen`, `ExamSchedulePage.ExamScreen`,
  `TeacherInputPage.TeacherScreen` and `SendPage.SendScreen`.

The loops of `elementToPdf` and `handleBulkSend` are modelled by `for` loops, and the loop of
`handleSaveAll` by a `while` loop. Each has invariants that tie its progress to a recursive specification function. Pages that only replace
their state wholesale are modelled as functions (InputPage, LoginPage, PreviewPage, SettingsPage).

Inputs the code cannot compute are parameters:

- **Clock:** `now` as an integer in milliseconds, or as the ISO text the page would record.
- **Token endpoint:** `Option<TokenResponse>`. `None` is a non-ok response or a thrown error, which
  the code treats alike.
- **Memo, notion and student services:** the outcome of each call (`bool`, or a `Returned`/`Threw`
  datatype).
- **Mock send:** its random draws, `draws: nat -> bool`.
- **File picker and FileReader:** the picked file and its data URL.

Shared modules:

- `Wrappers`: the Option type.
- `Text`: JavaScript string operations (`includes`, `startsWith`, `endsWith`, `split`, `join`,
  `padStart`, `replace` of the first match, `parseInt` of a decimal prefix, number to text).
- `Seqs`: `filter`, `find`, `findIndex`.
- `Types`: the record shapes of `src/types/index.ts` and the score clamp both score pages use.

## Model

| member | source | states |
|---|---|---|
| Types.ClampScore | src/pages/TeacherInputPage.tsx:111 | the clamped score lies in 0..100, equals the input inside that range, is 0 for a negative and 100 for a larger input |
| Kakao.Get | src/services/kakao.ts:81-83 | `getItem` yields a value exactly when the key is stored |
| Kakao.AfterSetTokens | src/services/kakao.ts:11-33 | access is always replaced; refresh kept when omitted, replaced when given; a truthy lifetime sets expiry to now + 1000·expiresIn − 60000, a falsy one keeps it; a falsy access removes the three keys; otherwise the access key is written and the refresh and expiry keys only when truthy in memory; other keys untouched |
| Kakao.Load | src/services/kakao.ts:81-87 | the three variables become what storage holds; the expiry is `parseInt` of the stored text when that is non-empty and null otherwise; storage unchanged |
| Kakao.AfterRefresh | src/services/kakao.ts:41-77 | a request is sent iff a truthy refresh token is in memory or storage; success iff sent and answered; on failure the session is unchanged |
| Kakao.AfterRestore | src/services/kakao.ts:80-101 | a refresh is only requested for an expired stored token with a stored refresh token; a failed refresh yields null, clears the access token (memory keeps the loaded refresh token and expiry) and removes the three keys, a successful one yields the refreshed session's token; with no refresh requested the loaded access token is returned |
| Kakao.AfterGetAccessToken | src/services/kakao.ts:104-109 | the returned token is always the in-memory access token after the optional refresh |
| Kakao.AfterCheckLogin | src/services/kakao.ts:207-212 | the answer is whether an access token is held afterwards; with a truthy token nothing changes |
| Kakao.AfterLogout | src/services/kakao.ts:215-220 | both tokens are null and none of the three keys is stored |
| Kakao.MemoText | src/services/kakao.ts:314 | the memo is exactly the chart emoji, a space, the title and a blank line, followed by the description |
| Kakao.AfterSendToMe | src/services/kakao.ts:289-334 | a memo is posted exactly when a token is held, always with the fixed text, and the result is then the send's outcome; without a token it is false |
| Kakao.TokenStore.constructor | src/services/kakao.ts:6-8 | module load: the three variables null, storage as the browser kept it |
| Kakao.TokenStore.SetTokens | src/services/kakao.ts:11-33 | the new state is `AfterSetTokens` of the old |
| Kakao.TokenStore.SetAccessToken | src/services/kakao.ts:36-38 | `setTokens(token)` with refresh and lifetime omitted |
| Kakao.TokenStore.RefreshAccessToken | src/services/kakao.ts:41-77 | result, request flag and new state are `AfterRefresh` of the old state |
| Kakao.TokenStore.RestoreAccessToken | src/services/kakao.ts:80-101 | result, request flag and new state are `AfterRestore` of the old state |
| Kakao.TokenStore.GetAccessToken | src/services/kakao.ts:104-109 | result, request flag and new state are `AfterGetAccessToken` of the old state |
| Kakao.TokenStore.CheckKakaoLogin | src/services/kakao.ts:207-212 | result and new state are `AfterCheckLogin` of the old state |
| Kakao.TokenStore.KakaoLogout | src/services/kakao.ts:215-220 | the new state is `AfterLogout` of the old |
| Kakao.TokenStore.SendKakaoMessageToMe | src/services/kakao.ts:289-334 | result, posted text and new state are `AfterSendToMe` of the old state |
| Kakao.LoginAttempt.constructor | src/services/kakao.ts:143-191 | the listener and the poll are installed and the promise is pending, whether or not the popup opened |
| Kakao.LoginAttempt.Resolve | src/services/kakao.ts:132 | a promise resolves once: only the first resolve takes effect |
| Kakao.LoginAttempt.OnMessage | src/services/kakao.ts:150-186 | only a `KAKAO_AUTH_CODE` message while listening acts; it removes the listener, stores the exchanged tokens (an absent refresh token keeps memory's, a `null` one clears it) and resolves with the access token, or resolves null when the exchange fails; any other message changes nothing |
| Kakao.LoginAttempt.OnPollTick | src/services/kakao.ts:191-202 | once the opened popup is closed, the poll and the listener are removed and the promise resolves null unless an access token exists; otherwise nothing changes |
| KakaoProperties.SetTokensMirrored | src/services/kakao.ts:11-33 | `setTokens` keeps storage a mirror of memory for every argument combination its callers use |
| KakaoProperties.StaleRefreshKeySurvives | src/services/kakao.ts:13-24 | a null refresh token given with a new access token clears memory but leaves the old stored key |
| KakaoProperties.LoadMirrored | src/services/kakao.ts:81-87 | reading a mirrored storage back yields the in-memory tokens, up to truthiness |
| KakaoProperties.RefreshMirrored | src/services/kakao.ts:41-77 | a refresh keeps the mirror |
| KakaoProperties.RestoreMirrored | src/services/kakao.ts:80-101 | a restore keeps the mirror |
| KakaoProperties.GetAccessTokenMirrored | src/services/kakao.ts:104-109 | `getAccessToken` keeps the mirror |
| KakaoProperties.CheckLoginMirrored | src/services/kakao.ts:207-212 | `checkKakaoLogin` keeps the mirror |
| KakaoProperties.SendToMeMirrored | src/services/kakao.ts:289-302 | sending a memo keeps the mirror |
| KakaoProperties.LogoutMirrored | src/services/kakao.ts:215-220 | after logout storage mirrors memory, whatever it held before |
| KakaoProperties.LogoutThenCheck | src/services/kakao.ts:207-220 | after logout `checkKakaoLogin` answers false |
| KakaoProperties.RestoreRightAfterLogin | src/services/kakao.ts:81-100 | a token granted for over 60 s is restored without a refresh until its recorded expiry passes (setTokens at lines 16-26) |
| KakaoProperties.ShortLivedTokenRefreshes | src/services/kakao.ts:105-106 | a token granted for under 60 s is already expired, so the next `getAccessToken` refreshes whenever a refresh token exists (the expiry is set at line 17) |
| KakaoProperties.SixtySecondBoundary | src/services/kakao.ts:105 | a 60 s token expires at its grant time and is not refreshed at that instant (the expiry is set at line 17) |
| KakaoProperties.NoRefreshWhileFresh | src/services/kakao.ts:104-109 | without an expiry, or before it, `getAccessToken` sends no request and changes nothing |
| KakaoProperties.StaleTokenOnFailedRefresh | src/services/kakao.ts:104-109 | when the refresh fails, the stale access token is still returned |
| KakaoProperties.RefreshWithoutRotation | src/services/kakao.ts:66-70 | a response without a refresh token keeps the one that was sent |
| KakaoProperties.RotationlessScenario | src/services/kakao.ts:66-70 | A1/R1 refreshed to A2 without a new refresh token leaves A2/R1 in memory and storage |
| KakaoProperties.RestoreFailureClears | src/services/kakao.ts:90-97 | a failed refresh during restore returns null, clears the access token and removes all three keys |
| KakaoProperties.RestoreExpiredWithoutRefresh | src/services/kakao.ts:81-100 | an expired token without a refresh token is returned as saved, with no request |
| KakaoProperties.SendWithoutToken | src/services/kakao.ts:293-302 | without a token nothing is posted and the result is false |
| KakaoProperties.SendWithToken | src/services/kakao.ts:298-329 | with an unexpired token the memo text is posted and the result is the endpoint's answer |
| Pdf.Ceil | src/services/pdf.ts:62 | `Math.ceil`: the least integer not below its argument |
| Pdf.ImgHeight | src/services/pdf.ts:52-53 | the scaled height is non-negative, and zero exactly for an empty canvas |
| Pdf.SlicedPages | src/services/pdf.ts:64-99 | page k holds exactly slice k |
| Pdf.Document | src/services/pdf.ts:56-100 | a short image gives one page; a tall one gives `ceil(imgHeight/287)` pages, each holding one slice |
| Pdf.ElementToPdf | src/services/pdf.ts:48-100 | the pages the code builds are `Document` |
| Pdf.AddSlices | src/services/pdf.ts:59-99 | the paging loop yields `SlicedPages` over `ceil(imgHeight/287)` pages |
| Pdf.SliceFormula | src/services/pdf.ts:70-77 | the loop's image for page k, computed from `position`, is `Slice` (placed at line 95) |
| Pdf.Placed | src/services/pdf.ts:95 | no image is placed exactly when every page is empty |
| Pdf.ShortDocument | src/services/pdf.ts:56-57 | a short image gives a document of one page holding the whole image |
| Pdf.SinglePage | src/services/pdf.ts:56-57 | that one image sits at (5, 5), 200 mm wide and `imgHeight` high, and shows the whole canvas |
| Pdf.PageCountBounds | src/services/pdf.ts:60-62 | at least one page; the last page starts below `imgHeight` and ends at or past it (position grows at line 98) |
| Pdf.DestHeightAt | src/services/pdf.ts:77 | every page but the last shows 287 mm, the last shows the rest; each is positive and at most 287 |
| Pdf.SourceIsScaledDest | src/services/pdf.ts:70-77 | `sourceY` and `sourceHeight` are `position` and `destHeight` scaled by canvas.height/imgHeight |
| Pdf.Contiguous | src/services/pdf.ts:70-74 | each slice starts where the previous one ends, and the last ends at the bottom of the canvas (position grows at line 98) |
| Pdf.SliceInCanvas | src/services/pdf.ts:71-74 | each slice starts inside the canvas and has positive height that does not run past its bottom |
| Pdf.SlicesScaled | src/services/pdf.ts:71-77 | in every slice the source height is the page height scaled by canvas.height/imgHeight |
| Pdf.DestCoverage | src/services/pdf.ts:77 | the page heights of a tall image's slices add up to `imgHeight` (page count at line 62, position step at line 98) |
| Pdf.SlicesCoverage | src/services/pdf.ts:71-77 | the slices of a tall image sum to `imgHeight` on the page side and to canvas.height on the source side (placed at line 95) |
| Pdf.Coverage | src/services/pdf.ts:56-100 | for any canvas the placed heights sum to `imgHeight`, and the source heights to canvas.height |
| Pdf.FitsPage | src/services/pdf.ts:56-77 | every placed image is 200 mm wide and at most 287 mm high, and non-empty unless the canvas is |
| Pdf.DownloadName | src/services/pdf.ts:114 | the name ends with the extension; a name that already ends with it is kept, others get it appended (the same rule at line 129) |
| Pdf.DownloadNameIdempotent | src/services/pdf.ts:114 | applying the rule twice is applying it once (the same rule at line 129) |
| Pdf.PdfToBase64Payload | src/services/pdf.ts:142 | the payload is the text between the first comma and the next one or the end |
| Pdf.PdfToBase64NoComma | src/services/pdf.ts:142 | without a comma the result is `undefined` |
| ReportStore.YearMonthShape | src/stores/reportStore.ts:39-42 | the key is the year's numeral, a dash and the two-digit month, so it ends with the padded month |
| ReportStore.YearMonthSplit | src/stores/reportStore.ts:39-42 | splitting the key at `-` gives exactly the year's numeral and the two-digit month |
| ReportStore.MonthTextDigits | src/stores/reportStore.ts:41 | the padded month is always two digits |
| ReportStore.MonthTextValue | src/stores/reportStore.ts:41 | the month part is two digits that read back as the one-based month |
| ReportStore.YearMonthFields | src/stores/reportStore.ts:39-42 | the key splits at its one dash into the year and the month, which parses as month0 + 1 |
| ReportStore.Initial | src/stores/reportStore.ts:48-87 | all lists empty, nothing selected, no token, logged out, the month set |
| ReportStore.WithReport | src/stores/reportStore.ts:58 | the report goes last, earlier ones stay, no other field changes |
| ReportStore.WithHistory | src/stores/reportStore.ts:62 | the entry goes last, earlier ones stay, no other field changes |
| ReportStore.WithKakaoToken | src/stores/reportStore.ts:70 | the token is stored and the login flag is its truthiness; nothing else changes |
| ReportStore.ReloadRestoresPersisted | src/stores/reportStore.ts:91-100 | a reload restores exactly the seven persisted fields; students and friends come from the fresh state |
| ReportStore.NotPersisted | src/stores/reportStore.ts:91-100 | students and Kakao friends never reach storage |
| ReportStore.AppendOrder | src/stores/reportStore.ts:58 | two appends keep both reports, in order, after the earlier ones |
| ReportStore.Store.constructor | src/stores/reportStore.ts:48-73 | the store starts in `Initial` with the current month key |
| ReportStore.Store.SetStudents | src/stores/reportStore.ts:50 | only `students` changes |
| ReportStore.Store.SetSelectedStudent | src/stores/reportStore.ts:51 | only `selectedStudent` changes |
| ReportStore.Store.SetCurrentReport | src/stores/reportStore.ts:56 | only `currentReport` changes |
| ReportStore.Store.SetReports | src/stores/reportStore.ts:57 | only `reports` changes |
| ReportStore.Store.AddReport | src/stores/reportStore.ts:58 | the state becomes `WithReport` of the old |
| ReportStore.Store.AddSendHistory | src/stores/reportStore.ts:62 | the state becomes `WithHistory` of the old |
| ReportStore.Store.SetKakaoFriends | src/stores/reportStore.ts:66 | only `kakaoFriends` changes |
| ReportStore.Store.SetKakaoLoggedIn | src/stores/reportStore.ts:68 | only the login flag changes |
| ReportStore.Store.SetKakaoAccessToken | src/stores/reportStore.ts:70 | the state becomes `WithKakaoToken` of the old |
| ReportStore.Store.SetCurrentYearMonth | src/stores/reportStore.ts:74 | only the month changes |
| ReportStore.Store.Reset | src/stores/reportStore.ts:77-87 | the state becomes `Initial` with the current month key |
| SendPage.Title | src/pages/SendPage.tsx:66 | the title is the student name, ` - `, the report month and ` 월말평가`, each readable back at its place |
| SendPage.Lines | src/pages/SendPage.tsx:67-68 | one `subject: score점` line per score, in score order |
| SendPage.DescriptionLines | src/pages/SendPage.tsx:67-69 | splitting the description at newlines gives back the lines, one per score; no scores give the empty text |
| SendPage.Entry | src/pages/SendPage.tsx:74-81 | the entry records the student, an empty report id, recipient `나에게 보내기`, status success and the send time |
| SendPage.AfterSend | src/pages/SendPage.tsx:73-92 | afterwards `sending` is off and a result is shown; success iff the call returned true; a false result logs out; an exception keeps the flag |
| SendPage.Recorded | src/pages/SendPage.tsx:73-86 | exactly one history entry on success, none otherwise |
| SendPage.EnabledAfterSend | src/pages/SendPage.tsx:90-92 | the button is disabled during the call, and enabled after it exactly when still logged in (with lines 62 and 278) |
| SendPage.SendScreen.constructor | src/pages/SendPage.tsx:16-22 | logged out, not sending, no result |
| SendPage.SendScreen.HandleSendToMe | src/pages/SendPage.tsx:56-93 | without a report nothing is sent or changed; otherwise the title and description are sent, `sending` is on during the call, and the screen and history become `AfterSend` and `Recorded` |
| ExamSchedulePage.OneTab | src/pages/ExamSchedulePage.tsx:62-75 | an active student is in exactly one tab, and only active students appear |
| ExamSchedulePage.TabsPartition | src/pages/ExamSchedulePage.tsx:62-75 | the three tabs are pairwise disjoint and together hold the active students, each as often as listed |
| ExamSchedulePage.EmptyTodayOverlaps | src/pages/ExamSchedulePage.tsx:62-68 | with an empty `today`, a student with an empty date shows in two tabs |
| ExamSchedulePage.ToggleEffect | src/pages/ExamSchedulePage.tsx:77-87 | the id flips membership, others keep theirs, and toggling twice undoes it |
| ExamSchedulePage.SelectAllEffect | src/pages/ExamSchedulePage.tsx:89-102 | listed ids end all out when all were selected, else all in; other ids keep their membership |
| ExamSchedulePage.AbsenceReason | src/pages/ExamSchedulePage.tsx:116-120 | `기타` saves the custom text, any other choice itself; an empty text is saved as absent |
| ExamSchedulePage.WithBulkDate | src/pages/ExamSchedulePage.tsx:144-146 | every selected student gets the date, the others stay as they were |
| ExamSchedulePage.WithAbsence | src/pages/ExamSchedulePage.tsx:121-125 | the student with the id gets the new date and reason, the others stay |
| ExamSchedulePage.BulkTodayLandsInToday | src/pages/ExamSchedulePage.tsx:135-155 | setting today's date on a selection moves every selected active student to the today tab (today from line 62) |
| ExamSchedulePage.QuickIsSingleBulk | src/pages/ExamSchedulePage.tsx:157-169 | a quick date set changes only the student with that id, as a one-student bulk update |
| ExamSchedulePage.ExamScreen.constructor | src/pages/ExamSchedulePage.tsx:17-27 | nothing selected, no modal open, empty form fields |
| ExamSchedulePage.ExamScreen.HandleSelectStudent | src/pages/ExamSchedulePage.tsx:77-87 | the selection becomes `Toggle` of the old; nothing else changes |
| ExamSchedulePage.ExamScreen.HandleSelectAll | src/pages/ExamSchedulePage.tsx:89-102 | the selection becomes `SelectAll` over the listed ids; nothing else changes |
| ExamSchedulePage.ExamScreen.OpenAbsenceModal | src/pages/ExamSchedulePage.tsx:104-109 | the modal opens on the student with empty date and reason fields |
| ExamSchedulePage.ExamScreen.HandleSaveAbsence | src/pages/ExamSchedulePage.tsx:111-133 | on success the students become `WithAbsence` with the chosen reason and the modal closes; otherwise nothing changes |
| ExamSchedulePage.ExamScreen.HandleBulkDateChange | src/pages/ExamSchedulePage.tsx:135-155 | rejected iff the selection or the date is empty; on success the students become `WithBulkDate`, the selection is cleared and the modal closes |
| ExamSchedulePage.ExamScreen.HandleQuickDateSet | src/pages/ExamSchedulePage.tsx:157-169 | on success only the one student's date changes; on failure nothing does |
| AdminPage.GetStudentReport | src/pages/AdminPage.tsx:68-70 | absent iff no report matches the student and month; otherwise the first one that does |
| AdminPage.StatusCases | src/pages/AdminPage.tsx:72-90 | each of the four labels holds under exactly its condition, with progress `entered/total` or `0/total` |
| AdminPage.CompletedCount | src/pages/AdminPage.tsx:256-259 | the completed count never exceeds the number of students |
| AdminPage.PercentageBounds | src/pages/AdminPage.tsx:331 | the percentage lies in 0..100, within one half of the exact ratio, is 100 when all are done and 0 when none are or there are no students |
| AdminPage.Dedup | src/pages/AdminPage.tsx:97 | `new Set(ids)` holds each id once and exactly the ids of the list |
| AdminPage.Toggle | src/pages/AdminPage.tsx:100-110 | the id flips membership, no other id changes, no id appears twice |
| AdminPage.Remove | src/pages/AdminPage.tsx:104 | `delete` removes the id and keeps every other |
| AdminPage.SelectAll | src/pages/AdminPage.tsx:92-98 | clears when the selection's size equals the student count, otherwise selects every student id |
| AdminPage.SelectAllWithRepeatedId | src/pages/AdminPage.tsx:92-98 | with a repeated student id the size never matches, so a second select-all selects again instead of clearing |
| AdminPage.SelectAllTwice | src/pages/AdminPage.tsx:92-98 | with distinct ids the first select-all selects all of them and the second clears them |
| AdminPage.ParentEntry | src/pages/AdminPage.tsx:147-167 | the history entry names the parent, or `학부모` without a name, with success or the mock failure message |
| AdminPage.TallyStep | src/pages/AdminPage.tsx:134-168 | each id adds one success or failure; a missing student or report adds a failure and no entry; a deliverable id adds one entry |
| AdminPage.BulkTally | src/pages/AdminPage.tsx:129-171 | success + failed equals the number of selected ids; entries lie between the successes and that number |
| AdminPage.NothingDeliverable | src/pages/AdminPage.tsx:134-143 | with no deliverable id there is no entry and no success |
| AdminPage.AllDeliverable | src/pages/AdminPage.tsx:145-168 | when every id is deliverable each adds exactly one entry |
| AdminPage.DeliverAll | src/pages/AdminPage.tsx:129-169 | the loop's tallies are `BulkTally`, and its entries are appended to the store's history in order |
| AdminPage.TallyUnfold | src/pages/AdminPage.tsx:134 | the tally of one id more is one more `TallyStep` |
| AdminPage.DeliverOne | src/pages/AdminPage.tsx:135-168 | one iteration is `TallyStep`, its entry appended to the store |
| AdminPage.EditRows | src/pages/AdminPage.tsx:177-193 | one row per subject in subject order, reusing the report's score or the placeholder |
| AdminPage.EditRowsWithoutReport | src/pages/AdminPage.tsx:183-189 | without a report every row is score 0, difficulty C |
| AdminPage.ChangeScore | src/pages/AdminPage.tsx:195-199 | the edit applies to the rows of that subject only; order and length stay |
| AdminPage.SavedScoresVisible | src/pages/AdminPage.tsx:213-236 | after a successful save the student's report for the month has exactly the edited rows; a new one is a draft with id `studentId-yearMonth`; reports keep their count or grow by one |
| AdminPage.AdminScreen.constructor | src/pages/AdminPage.tsx:35-41 | nothing selected, not sending, no result, no editor open |
| AdminPage.AdminScreen.HandleSelectStudent | src/pages/AdminPage.tsx:100-110 | the selection becomes `Toggle` of the old; nothing else changes |
| AdminPage.AdminScreen.HandleSelectAll | src/pages/AdminPage.tsx:92-98 | the selection becomes `SelectAll` of the old; nothing else changes |
| AdminPage.AdminScreen.HandleBulkSend | src/pages/AdminPage.tsx:120-174 | an empty selection only alerts; otherwise the history grows by `BulkTally`'s entries, the tallies are shown and the selection is cleared |
| AdminPage.AdminScreen.OpenEditModal | src/pages/AdminPage.tsx:177-193 | the editor opens on the student with `EditRows` of the month's report |
| AdminPage.AdminScreen.HandleScoreChange | src/pages/AdminPage.tsx:195-199 | the rows become `ChangeScore` of the old |
| AdminPage.AdminScreen.HandleSaveScores | src/pages/AdminPage.tsx:201-244 | on success the reports become `SavedReports` and the editor closes; on failure an alert and no change |
| TeacherInputPage.MyStudents | src/pages/TeacherInputPage.tsx:100 | exactly the students whose subjects include the selected one |
| TeacherInputPage.ExistingEntry | src/pages/TeacherInputPage.tsx:86-95 | the first recorded score and comment of the subject in the student's report for the month, else 0 and empty |
| TeacherInputPage.InitialScoresExact | src/pages/TeacherInputPage.tsx:82-97 | the map holds exactly the ids of the students taking the subject, each with its loaded entry |
| TeacherInputPage.ScoreChange | src/pages/TeacherInputPage.tsx:107-114 | the entry gets the clamped score and keeps its comment, an absent one starting from 0 and empty; other entries stay |
| TeacherInputPage.CommentChange | src/pages/TeacherInputPage.tsx:116-123 | the entry gets the comment and keeps its score; other entries stay |
| TeacherInputPage.EditsCommute | src/pages/TeacherInputPage.tsx:107-123 | a score edit and a comment edit of one student commute |
| TeacherInputPage.ScoreChangeIdempotent | src/pages/TeacherInputPage.tsx:107-114 | entering the same score twice is entering it once |
| TeacherInputPage.UpsertEffect | src/pages/TeacherInputPage.tsx:166-174 | the first score of the subject is replaced in place, or the score is appended when absent; other scores stay |
| TeacherInputPage.UpsertFinds | src/pages/TeacherInputPage.tsx:166-174 | looking the subject up afterwards finds the new score; the list grows by at most one |
| TeacherInputPage.UpsertIdempotent | src/pages/TeacherInputPage.tsx:166-174 | upserting the same score again changes nothing |
| TeacherInputPage.NewScore | src/pages/TeacherInputPage.tsx:153-160 | the recorded score carries the subject, score, comment, teacher and time |
| TeacherInputPage.DraftReport | src/pages/TeacherInputPage.tsx:182-191 | the new draft holds exactly the one score, with id `studentId-yearMonth` |
| TeacherInputPage.SaveStep | src/pages/TeacherInputPage.tsx:134-193 | a student without an entry or with score 0 is skipped; a true save counts one and updates or adds exactly one report; a throw ends the loop |
| TeacherInputPage.SaveLogOf | src/pages/TeacherInputPage.tsx:132-196 | the count equals the reports updated plus added, at most one per student |
| TeacherInputPage.SaveUnfold | src/pages/TeacherInputPage.tsx:134 | the log over one student more is one more `SaveStep` |
| TeacherInputPage.FailedIsFinal | src/pages/TeacherInputPage.tsx:198-200 | after a throw the remaining students change nothing |
| TeacherInputPage.SavedPositionsStep | src/pages/TeacherInputPage.tsx:149-150 | one more position counts exactly when its save returned true |
| TeacherInputPage.CountIsSavesUpTo | src/pages/TeacherInputPage.tsx:132-150 | without a throw, the count over the first k students is the number of true saves among them |
| TeacherInputPage.CountIsSaves | src/pages/TeacherInputPage.tsx:132-150 | without a throw, the saved count is the number of students whose save returned true (shown at line 196) |
| TeacherInputPage.NothingToSave | src/pages/TeacherInputPage.tsx:135-136 | with no non-zero score nothing is called or changed |
| TeacherInputPage.UpdatedReportFindsScore | src/pages/TeacherInputPage.tsx:162-180 | an updated report keeps its identity and yields the new score for the subject |
| TeacherInputPage.SaveOne | src/pages/TeacherInputPage.tsx:135-193 | one iteration is `SaveStep`, its draft added to the store |
| TeacherInputPage.SaveAll | src/pages/TeacherInputPage.tsx:134-194 | the loop's log is `SaveLogOf`, its drafts appended to the store's reports |
| TeacherInputPage.TeacherScreen.constructor | src/pages/TeacherInputPage.tsx:43-50 | no subject, empty map, not saving, no message |
| TeacherInputPage.TeacherScreen.SelectDefaultSubject | src/pages/TeacherInputPage.tsx:60-62 | the first subject is chosen when none is |
| TeacherInputPage.TeacherScreen.LoadScores | src/pages/TeacherInputPage.tsx:78-98 | with a subject and students the map becomes `InitialScores`; otherwise it stays |
| TeacherInputPage.TeacherScreen.HandleScoreChange | src/pages/TeacherInputPage.tsx:107-114 | the map becomes `ScoreChange` of the old |
| TeacherInputPage.TeacherScreen.HandleCommentChange | src/pages/TeacherInputPage.tsx:116-123 | the map becomes `CommentChange` of the old |
| TeacherInputPage.TeacherScreen.HandleSaveAll | src/pages/TeacherInputPage.tsx:125-204 | without a user nothing happens; otherwise the store and the message follow `SaveLogOf` over the rendered reports, and `saving` ends off |
| InputPage.ZeroScores | src/pages/InputPage.tsx:58-61 | one zero score per subject, in subject order |
| InputPage.OnSelect | src/pages/InputPage.tsx:56-66 | a selection gets zero scores and an empty comment; no selection leaves the form |
| InputPage.ScoreValue | src/pages/InputPage.tsx:78 | the value lies in 0..100, and a non-numeric entry counts as 0 |
| InputPage.ScoreValueOfNumeral | src/pages/InputPage.tsx:78 | a score in range typed as its numeral reads back as itself |
| InputPage.ScoreChange | src/pages/InputPage.tsx:77-82 | only the lines of the subject change, to the clamped value; order and length stay |
| InputPage.ScoreChangeIdempotent | src/pages/InputPage.tsx:77-82 | entering the same value twice is entering it once |
| InputPage.Filtered | src/pages/InputPage.tsx:70-74 | a student is shown iff the name, grade or a subject contains the term |
| InputPage.EmptyTermKeepsAll | src/pages/InputPage.tsx:70-74 | an empty term shows the whole list, in order |
| InputPage.HandlePreview | src/pages/InputPage.tsx:85-105 | no student, then all-zero scores, are rejected with their alerts; the preview goes ahead iff a student is chosen and a score is non-zero, carrying the student, month, scores and comment |
| InputPage.SelectThenPreviewRejected | src/pages/InputPage.tsx:56-66 | a freshly selected student cannot be previewed (preview guard at lines 91-94) |
| InputPage.ScoreEnablesPreview | src/pages/InputPage.tsx:77-105 | one non-zero score for a subject of the student enables the preview |
| InputPage.Reset | src/pages/InputPage.tsx:241-245 | no selection, no scores, no comment; the search term stays |
| InputPage.ResetBlocksPreview | src/pages/InputPage.tsx:86-89 | after a reset the preview asks for a student (preview guard at lines 241-245) |
| LoginPage.Digits | src/pages/LoginPage.tsx:111 | removing non-digits leaves only digits and never lengthens |
| LoginPage.DigitsAppend | src/pages/LoginPage.tsx:111 | removing non-digits distributes over concatenation |
| LoginPage.DigitsOfDigits | src/pages/LoginPage.tsx:111 | a string of digits is kept whole |
| LoginPage.SanitizePin | src/pages/LoginPage.tsx:111 | the PIN is the first at most four digits of the input, in order |
| LoginPage.SanitizeIdempotent | src/pages/LoginPage.tsx:111 | sanitising twice is sanitising once |
| LoginPage.SanitizeKeystroke | src/pages/LoginPage.tsx:111 | a keystroke appends its character only when it is a digit and fewer than four are held |
| LoginPage.RouteFor | src/pages/LoginPage.tsx:54-58 | `/admin` iff the teacher is an admin, else `/teacher` (and the mount redirect at lines 18-22) |
| LoginPage.HandleLogin | src/pages/LoginPage.tsx:35-60 | an unknown id gives the select error, a PIN mismatch the PIN error, and a match the user with the login time and its route |
| LoginPage.RedirectOnMount | src/pages/LoginPage.tsx:15-24 | a signed-in user is routed by the same rule; otherwise the page stays |
| LoginPage.LoginThenRedirect | src/pages/LoginPage.tsx:15-60 | after a successful login a visit to the login page sends the teacher to the same route |
| LoginPage.UnreachablePin | src/pages/LoginPage.tsx:44-47 | a stored PIN that is not at most four digits can never be typed into the box (the box at line 111) |
| PreviewPage.FormatMonth | src/pages/PreviewPage.tsx:147-150 | the label ends with `월`; without a dash it is `NaN월` |
| PreviewPage.FormatMonthOfKey | src/pages/PreviewPage.tsx:147-150 | a store month key is labelled with its month number, without a leading zero |
| PreviewPage.FormatMonthExample | src/pages/PreviewPage.tsx:147-150 | `2025-08` is labelled `8월` |
| PreviewPage.HeaderMonth | src/pages/PreviewPage.tsx:206 | the first dash becomes `년 `, then `월` follows; without a dash only `월` is appended |
| PreviewPage.HeaderMonthOfKey | src/pages/PreviewPage.tsx:206 | a store month key shows as year, `년 `, the two-digit month and `월` |
| PreviewPage.FinalValuesKeys | src/pages/PreviewPage.tsx:83-86 | the reduced object has exactly one key per subject of the scores |
| PreviewPage.FinalValuesLast | src/pages/PreviewPage.tsx:83-86 | each subject holds the score of its last occurrence |
| PreviewPage.TrendData | src/pages/PreviewPage.tsx:77-88 | the history entries knowing a current subject, in order, then the current month with the scores |
| PreviewPage.TrendHistoryExact | src/pages/PreviewPage.tsx:78-80 | a history entry is kept iff some current subject is a key of it |
| PreviewPage.ChartShownIff | src/pages/PreviewPage.tsx:77-88 | the chart appears iff some history entry knows a current subject (rendered at line 247) |
| PreviewPage.SampleKeys | src/pages/PreviewPage.tsx:19-25 | every sample entry answers the same keys |
| PreviewPage.DummyChartShown | src/pages/PreviewPage.tsx:19-25 | with the sample history the chart appears iff a subject is `국어`, `영어`, `month` or an inherited object name (rendered at line 247) |
| PreviewPage.PdfImage | src/pages/PreviewPage.tsx:112-114 | one image at (0, 0), 210 mm wide, `canvas.height·210/canvas.width` high, showing the whole canvas |
| PreviewPage.TallCanvasOverflows | src/pages/PreviewPage.tsx:112-114 | a canvas taller than the A4 ratio runs past the bottom of the page |
| PreviewPage.FileName | src/pages/PreviewPage.tsx:115 | the name starts with the student name and ends with `_리포트` and the extension (and line 139) |
| PreviewPage.FileNames | src/pages/PreviewPage.tsx:115 | both names already satisfy the download rule, and share the stem (and line 139) |
| SettingsPage.OpenAfterLogin | src/pages/SettingsPage.tsx:35-47 | nobody signed out sees the form, and a freshly signed-in teacher sees it iff the login routed them to `/admin` |
| SettingsPage.OrUndefined | src/pages/SettingsPage.tsx:113 | `value \|\| undefined`: absent iff empty, else the value |
| SettingsPage.HandleSave | src/pages/SettingsPage.tsx:111-126 | each of the ten fields is saved absent iff its box is empty, else verbatim |
| SettingsPage.Load | src/pages/SettingsPage.tsx:16-31 | each box opens with its saved value, or empty |
| SettingsPage.SaveThenLoad | src/pages/SettingsPage.tsx:111-126 | saving and reopening shows the form as it was (loaded by lines 16-31) |
| SettingsPage.LoadThenSave | src/pages/SettingsPage.tsx:111-126 | reopening and saving keeps the settings iff none was saved as the empty string; saved settings never contain one (loaded by lines 16-31) |
| SettingsPage.HandleLogoUpload | src/pages/SettingsPage.tsx:51-71 | no file changes nothing; a non-image and a file over 512000 bytes are refused with their alerts; otherwise the logo becomes the data URL |
| SettingsPage.SizeBoundary | src/pages/SettingsPage.tsx:60-63 | 512000 bytes pass, 512001 are refused |
| SettingsPage.HandleRemoveLogo | src/pages/SettingsPage.tsx:73-78 | the logo and the mounted file input are emptied |
| SettingsPage.RemovedLogoNotSaved | src/pages/SettingsPage.tsx:73-78 | a removed logo is saved as absent (saved by lines 111-126) |
| SettingsPage.HandleTestConnection | src/pages/SettingsPage.tsx:80-109 | no key: error and no test; otherwise testing during the call, then the result's flag and message or the fixed exception message |
| SettingsPage.TestSucceedsIff | src/pages/SettingsPage.tsx:80-109 | success iff a key was given and the service reported success; the status never ends idle or testing |

## Left out

- DOM, canvas and library calls are not modelled: html2canvas, jsPDF, `toDataURL`,
  `drawImage`, `removeOklchColors`, link clicks, FileReader, `window.open`, `postMessage`.
  These are browser APIs and foreign libraries. Their results enter as parameters.
- Timers are not modelled: the 3-second message clearing, and the 500 ms interval and grace
  timeout of the popup login. Alerts, console output, navigation, styling and markup are also left out.
- `fetch` and JSON bodies are reduced to outcomes. `Date.now()`, `new Date()`, `toISOString` and
  `Math.random()` are parameters.
- One clock value per operation stands for all of that operation's `new Date().toISOString()`
  calls. In the source the calls inside a loop carry distinct, increasing times. Examples are the
  history entries of `handleBulkSend` (AdminPage.tsx:153 and :164), taken after a 100 ms wait
  per id, and the score and report stamps of `handleSaveAll` (TeacherInputPage.tsx:158, :178
  and :187-188). Here all of them carry the same text.
- The Notion service (`src/services/notion.ts`), `App.tsx`, `vite.config.ts` and `electron/preload.js`
  are not part of this model. `getKakaoFriends`, `sendKakaoMessage`, `initKakao` and
  `getAccessTokenSync` are also outside the core.
- Pdf.ElementToPdf: JavaScript numbers are exact reals, so IEEE rounding drift in the slice
  arithmetic is not covered. A zero-width canvas is excluded. In JavaScript it raises no error.
  With a non-zero height, `imgHeight` is `Infinity` (pdf.ts:53), so `totalPages` is `Infinity`
  (pdf.ts:62) and the loop at pdf.ts:64 never ends. With a zero height as well, both are `NaN`,
  the loop does not run, and no image is placed.
  A missing 2D context, which leaves a page blank, is not modelled.
- PreviewPage.PdfImage: a zero-width canvas is excluded, as for the paginator. There the height
  handed to `addImage` (PreviewPage.tsx:113) would be `Infinity`, or `NaN` for a zero height.
- AdminPage.PercentageBounds: `Math.round` of the floating-point ratio is modelled exactly as
  `floor((200c + n) / (2n))`.
- KakaoProperties.SetTokensMirrored, RefreshMirrored, RestoreMirrored, GetAccessTokenMirrored and
  SendToMeMirrored assume a clock past the first minute of the epoch and a non-negative lifetime.
  Without that, the recorded expiry could be 0. Zero is falsy, so an older stored expiry would be
  left behind.
- KakaoProperties.SetTokensMirrored holds only for the argument combinations the callers use.
  StaleRefreshKeySurvives shows what happens outside them.
- Kakao.TokenStore.CheckKakaoLogin: `restoreAccessToken` is called without `await`. Only its
  synchronous reads are modelled before the return; its later refresh is not.
- Kakao.LoginAttempt.OnMessage: the code exchange is fused into the message event. A race between
  an exchange still in flight and the grace timeout is not captured. The message path leaves the
  poll running, as the code does; whether the poll is cleared on every path is not claimed.
- Kakao.LoginAttempt.OnPollTick: the 500 ms grace timeout is fused into the tick that sees the
  popup closed. A blocked popup never closes, so that promise never resolves. No termination is
  claimed.
- ExamSchedulePage.TabsPartition and OneTab require a non-empty `today`. The code's date is never
  empty. EmptyTodayOverlaps shows the overlap otherwise.
- AdminPage.Toggle, SelectAll and Dedup: the JavaScript `Set` is an insertion-ordered sequence
  without duplicates, which is the order `for … of` visits.
- TeacherInputPage.TeacherScreen.HandleSaveAll: `updateReport` is imported but not defined by the
  store, so its calls are returned as a list rather than applied. In the running page such a call
  would throw at that point. A `saveScore` exception is the `Threw` outcome. The rendered `reports`
  closure is the lookup snapshot for the whole loop.
- TeacherInputPage.CountIsSaves assumes no call throws. FailedIsFinal covers the case where one does.
- Text.ParseInt, and so InputPage.ScoreValue and PreviewPage.FormatMonth: leading whitespace is
  not skipped as `parseInt` would skip it; such an input reads as `NaN` here. The pages call
  `parseInt` without a radix, so `0x1A` parses as hexadecimal 26 there; here it reads as 0.
- PreviewPage.TrendData: a subject literally named `month` overriding the final entry's month is
  not modelled. The chart's colours and lines are also not modelled.
- Types: the teacher list, the current user, logout, exams and app settings live outside the
  modelled store fields. They enter as parameters.
- SettingsPage.HandleSave: the saved object has the page's ten fields. The `AppSettings`
  interface's other declared fields are not modelled.
