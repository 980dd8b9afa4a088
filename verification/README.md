# English-prep companion: pages and track store, modelled in Dafny

The English-prep companion is a study tracker for English learners. A student records exams, assignments, attendance and vocabulary/grammar "tracks" in a hosted backend. The pages then compute dashboards from those lists. This project models the logic that sits inside the pages and the tracks hook, as pure Dafny functions over immutable records:

- **Track progress.** Ticking a vocabulary item flips its `learned` flag and recomputes the completion percentage. Only the vocabulary and the percentage are sent back (`TrackProgress`).
- **Add forms.** The exam, assignment, attendance and track forms each have a submit handler, written as a state transition (`AddForms`). A handler either refuses locally with a notice or builds one payload. The form is cleared only when the backend call succeeds. The track form also has the word and grammar draft lists.
- **Dashboards.** These are the upcoming-exam and pending-assignment lists (capped at 3), the absence total and its alert threshold, completed tracks, the course-progress mean and the avatar initials (`Home`). The exams page adds its type filter, overall and per-type averages and grade colour bands (`ExamStats`). The profile page reuses these (`ProfilePage`).
- **Track storage boundary.** Rows read back are normalised, and create/update payloads are built with the lists as JSON text (`TrackStore`).
- **Credential forms.** Sign in, sign up and reset-link requests validate in a fixed order and stop at the first failure (`Validation`, `AuthPage`). The reset-password page checks the session and the new password (`ResetPassword`).

Modelling conventions:

- **Dates** are `Instant = int`, and "now" is a parameter.
- **Backend calls.** Every call is represented by how it settles: `Outcome = Ok | Err(message)`. A handler returns a `Submission(form, call, notice)`. That is the form state afterwards, the payload handed to the backend (`None` when nothing is sent) and the notice shown.
- **Foreign functions.** `JSON.stringify` is the uninterpreted term `Stringified(value)`. The zod e-mail check, `parseFloat` and `parseInt` are function parameters.
- **`Math.round`** is applied to the exact quotient (`Rounding.Round`). The result is the nearest integer, with a half rounded up.
- **Strings** are `seq<char>`. `trim` uses the full ECMAScript white-space set. `toUpperCase` is modelled for ASCII letters.

The code behaves as follows:

- The add-form handlers do not range-check grades (0–100) or hours (1–12). Only the browser's input attributes constrain them, so an attendance of 40 hours is sent (`AddForms.AttendanceHoursUnchecked`).
- Reading tracks replaces every falsy list column (null, absent, `""`, `0` or `false`) by an empty list, because of `(…) || []`. A truthy value that is not an array passes through unchanged. The model's row type admits only absent or well-formed lists.
- The exams hook delivers exams latest first, so the dashboard shows the *latest* future exams, not the soonest ones (`Home.UpcomingAreLatest`, `Home.UpcomingExample`).

## Model

| member | source | states |
|---|---|---|
| TrackProgress.ToggleAt | src/pages/Tracks.tsx:87-88 | flips `learned` at exactly the chosen index; word and meaning there, the length and every other item are unchanged |
| TrackProgress.ToggleTwice | src/pages/Tracks.tsx:87-88 | applying `ToggleAt` twice at the same index to one vocabulary list gives the list back (the dialog itself does not do this; see Findings) |
| TrackProgress.LearnedCount | src/pages/Tracks.tsx:90 | the learned count never exceeds the vocabulary size |
| TrackProgress.ToggleChangesLearnedByOne | src/pages/Tracks.tsx:87-90 | relative to the vocabulary the handler reads, `ToggleAt` moves the learned count by exactly one, down if the item was learned and up otherwise |
| TrackProgress.Completion | src/pages/Tracks.tsx:90-92 | 0 when there is nothing to learn; otherwise the integer nearest to 100·learned/total (half rounds up); within 0..100 whenever learned ≤ total |
| TrackProgress.CompletionMonotone | src/pages/Tracks.tsx:90-92 | learning more never lowers the percentage |
| TrackProgress.CompletionNothingLearned | src/pages/Tracks.tsx:92 | nothing learned gives 0 for any total |
| TrackProgress.CompletionAllLearned | src/pages/Tracks.tsx:90-92 | everything learned gives exactly 100 |
| TrackProgress.CompletionHundredIff | src/pages/Tracks.tsx:90-92 | below 200 items, 100 is shown if and only if every item is learned |
| TrackProgress.CompletionRoundsUpToHundred | src/pages/Tracks.tsx:92 | with 199 of 200 items learned, rounding already shows 100 |
| TrackProgress.TrackCompletion | src/pages/Tracks.tsx:90-92 | the percentage of a track always lies in 0..100, because grammar topics count in the total but never as learned |
| TrackProgress.AllWordsLearnedNoGrammar | src/pages/Tracks.tsx:90-92 | a non-empty track with no grammar topics and every word learned is 100% complete |
| TrackProgress.GrammarKeepsTrackOpen | src/pages/Tracks.tsx:91-92 | a track with a grammar topic and fewer than 200 items never reaches 100 |
| TrackProgress.ToggleVocabulary | src/pages/Tracks.tsx:86-98 | the update names the track and the toggled vocabulary (only the chosen index differs), and carries the recomputed percentage in 0..100; the unit name and grammar topics are absent |
| TrackProgress.ToggleSendsOnlyProgress | src/pages/Tracks.tsx:94-98 | passed through the update hook, a toggle writes only the vocabulary JSON and the percentage, never the unit name or the grammar topics |
| TrackProgress.Refreshed | src/pages/Tracks.tsx:86-98 | the stored track after one tick's update: the vocabulary toggled at that index, the percentage the update carries, every other field unchanged |
| TrackProgress.StaleSession | src/pages/Tracks.tsx:86-98 | as written: every tick is computed from the track the dialog was opened with, so the stored vocabulary ends as that snapshot toggled at the last tick only |
| TrackProgress.StaleTickTwiceKeepsFlip | src/pages/Tracks.tsx:86-98 | as written, ticking the same box twice leaves it flipped instead of restoring it |
| TrackProgress.StaleSessionLosesEarlierTick | src/pages/Tracks.tsx:86-98 | as written, a tick on a second box stores the first box as it was before its own tick |
| TrackProgress.FreshSession | src/pages/Tracks.tsx:86-98 | corrected: each tick reads the track as last stored; id, unit name, grammar topics and vocabulary length never change |
| TrackProgress.FreshSessionCompletionAgrees | src/pages/Tracks.tsx:90-92 | with fresh reads, the stored percentage always matches the stored vocabulary |
| TrackProgress.FreshSessionFlipsPerTick | src/pages/Tracks.tsx:87-88 | with fresh reads, a box ends flipped if and only if it was ticked an odd number of times; words and meanings never change |
| TrackProgress.OddTicksIffOddCount | src/pages/Tracks.tsx:87-88 | the flip flag used above is exactly "ticked an odd number of times" |
| TrackProgress.FreshTickTwiceRestores | src/pages/Tracks.tsx:87-88 | with fresh reads, ticking a box twice restores the vocabulary |
| TrackProgress.FreshSessionKeepsEarlierTick | src/pages/Tracks.tsx:87-88 | with fresh reads, ticks on two different boxes both persist |
| Rounding.Round | src/pages/Tracks.tsx:92 | `Math.round(n/d)` is the integer r with 2n−d < 2dr ≤ 2n+d |
| Rounding.RoundUnique | src/pages/Tracks.tsx:92 | exactly one integer meets the rounding bounds |
| Rounding.RoundMonotone | src/pages/Home.tsx:40 | rounding a larger numerator never gives a smaller result |
| Rounding.RoundExact | src/pages/Home.tsx:40 | an exact integer quotient rounds to itself |
| Rounding.RoundBetween | src/pages/Home.tsx:40 | a quotient enclosed by integer bounds rounds to a value within them |
| Sequences.Filter | src/pages/Home.tsx:26 | the kept elements all satisfy the test, come from the input, and every passing input element is kept |
| Sequences.FilterConcat | src/pages/Home.tsx:34 | filtering a concatenation concatenates the filtered halves, so input order is kept |
| Sequences.FilterKeepsAll | src/pages/Exams.tsx:26-27 | a test that every element passes returns the list unchanged |
| Sequences.FilterEmptyIff | src/pages/Exams.tsx:31-32 | a filter is empty exactly when no element passes |
| Sequences.Count | src/pages/Home.tsx:38 | a count never exceeds the list length |
| Sequences.CountConcat | src/pages/Home.tsx:38 | counts add over concatenation |
| Sequences.CountAllIff | src/pages/Home.tsx:38 | the count equals the length exactly when every element passes |
| Sequences.Prefix | src/pages/Home.tsx:27 | `slice(0, n)` is the first min(n, length) elements |
| Sequences.RemoveAt | src/pages/Add.tsx:441 | removing index i gives the elements before and after it; an index outside the list changes nothing |
| Sequences.RemoveAtShifts | src/pages/Add.tsx:441 | after a removal, earlier elements stay in place and later ones move down by one |
| Sequences.RemoveAppended | src/pages/Add.tsx:441 | removing the element just appended restores the list |
| Text.Trim | src/pages/Add.tsx:76 | the trimmed text is empty exactly when the input is all white space, and otherwise neither starts nor ends with white space |
| Text.TrimSlice | src/pages/Add.tsx:82 | the trimmed text is a slice of the input with nothing but white space before and after it |
| Text.TrimBlankIff | src/pages/Add.tsx:76 | the trimmed bounds meet exactly when every character is white space, so `!s.trim()` means "blank" |
| Text.TrimOfTrimmed | src/pages/Add.tsx:82 | a string with no white space at either end is left unchanged by trimming |
| Text.TrimIdempotent | src/pages/Add.tsx:82 | trimming an already trimmed string changes nothing |
| Text.Split | src/pages/Home.tsx:45 | `split(' ')` yields one more part than there are spaces, and no part contains a space |
| Text.JoinSplit | src/pages/Home.tsx:45 | joining the parts of `split(' ')` with spaces gives the original string back |
| Text.Contains | src/pages/Auth.tsx:79 | `includes` finds the empty string in every string and never finds a needle longer than the text |
| Text.ContainsIff | src/pages/Auth.tsx:79 | `includes` holds exactly when the substring occurs at some position |
| Text.UpperChar | src/pages/Home.tsx:45 | lower-case ASCII letters move to upper case, everything else is kept |
| Text.Upper | src/pages/Home.tsx:45 | upper-casing keeps the length and maps each character independently |
| TrackStore.Normalise | src/hooks/useTracks.ts:39-43 | absent list columns read as empty, present ones pass through, every other column is copied |
| TrackStore.NormaliseStored | src/hooks/useTracks.ts:39-43 | a row whose lists are present normalises back to the track it stores |
| TrackStore.NormaliseAll | src/hooks/useTracks.ts:39-43 | one track per row, in row order |
| TrackStore.ReadTracks | src/hooks/useTracks.ts:30-45 | the query is disabled if and only if nobody is signed in; otherwise it holds the normalised rows or the reported error |
| TrackStore.TracksShown | src/pages/Tracks.tsx:14 | a page shows the fetched tracks, and the `[]` default when the query is disabled or failed on its first fetch |
| TrackStore.SignedInSeesNormalisedRows | src/hooks/useTracks.ts:31-45 | after a successful fetch a signed-in page shows one normalised track per row, in row order |
| TrackStore.SignedOutSeesNothing | src/hooks/useTracks.ts:31-45 | a signed-out reader gets the empty list whatever the backend holds |
| TrackStore.CreateTrack | src/hooks/useTracks.ts:54-63 | without a user it fails with "Not authenticated" and builds no insert; otherwise the insert carries the user's id, the track fields and both lists as JSON text |
| TrackStore.UpdateTrack | src/hooks/useTracks.ts:84-91 | the id selects the row and is not written; each list is encoded exactly when the patch names it; the other columns are copied |
| AddForms.OptionalText | src/pages/Add.tsx:86 | blank text becomes null; otherwise the trimmed, non-empty text |
| AddForms.SubmitExam | src/pages/Add.tsx:74-93 | refused (notice, no call, form kept) exactly when the trimmed title or the date is empty; the payload has the trimmed title, a grade only when one was typed, and trimmed notes or null; success clears everything but the type; a failed call clears nothing |
| AddForms.ExamResubmitSendsNothing | src/pages/Add.tsx:76-92 | after a successful submit, submitting again is refused |
| AddForms.SubmitAssignment | src/pages/Add.tsx:181-199 | refused exactly when the trimmed title or due date is empty; the payload has the trimmed title and the trimmed description or null; success resets the form, including status to pending; a failed call keeps it |
| AddForms.AssignmentResubmitSendsNothing | src/pages/Add.tsx:183-198 | after a successful submit, submitting again is refused |
| AddForms.SubmitAttendance | src/pages/Add.tsx:273-289 | refused only when the date or hours text is empty; otherwise the parsed hours are sent unchecked; success resets the hours to "1" and the status to present |
| AddForms.AttendanceHoursUnchecked | src/pages/Add.tsx:275-284 | 40 hours of absence are sent as they are |
| AddForms.AttendanceResubmitSendsNothing | src/pages/Add.tsx:275-288 | after a successful submit, submitting again is refused |
| AddForms.AddVocabulary | src/pages/Add.tsx:357-363 | with both inputs non-blank, one trimmed entry is appended and both inputs cleared; otherwise nothing changes |
| AddForms.AddGrammar | src/pages/Add.tsx:365-370 | a non-blank topic is appended trimmed and the input cleared; otherwise nothing changes |
| AddForms.RemoveVocabulary | src/pages/Add.tsx:441 | the cross on word i removes exactly that entry and touches nothing else |
| AddForms.RemoveGrammar | src/pages/Add.tsx:473 | the cross on topic i removes exactly that entry and touches nothing else |
| AddForms.RemoveUndoesAdd | src/pages/Add.tsx:357-363 | removing the word just added restores the draft list |
| AddForms.Unlearned | src/pages/Add.tsx:381 | every drafted word is sent with its word and meaning and `learned = false` |
| AddForms.SubmitTrack | src/pages/Add.tsx:372-389 | refused exactly when the trimmed unit name is empty; sends the trimmed name, the words unlearned, the topics as drafted and completion 0; success clears the name and both drafts but not the entry inputs |
| AddForms.TrackResubmitSendsNothing | src/pages/Add.tsx:374-388 | after a successful submit, submitting again is refused |
| AddForms.NewTrackCompletionConsistent | src/pages/Add.tsx:379-384 | the stored completion 0 agrees with the percentage the track dialog computes for the new track |
| AddForms.NothingLearnedYet | src/pages/Add.tsx:381 | no word of a new track is learned |
| Home.UpcomingExams | src/pages/Home.tsx:25-27 | at most three exams, all dated after now, and they are the first future exams in input order |
| Home.FilterLatestFirst | src/pages/Home.tsx:25-27 | filtering a latest-first list keeps it latest-first |
| Home.UpcomingAreLatest | src/pages/Home.tsx:25-27 | with latest-first input, a future exam left off the list is dated no later than every listed one |
| Home.UpcomingExample | src/pages/Home.tsx:25-27 | from next week, tomorrow and yesterday, next week and tomorrow are shown |
| Home.PendingAssignments | src/pages/Home.tsx:29-31 | at most three assignments, none completed, being the first open ones in input order |
| Home.FewPendingAllShown | src/pages/Home.tsx:29-31 | with at most three open assignments, every one is listed |
| Home.HoursSumConcat | src/pages/Home.tsx:33-35 | hour sums add over concatenation |
| Home.TotalAbsences | src/pages/Home.tsx:33-35 | the total is non-negative when no row has negative hours |
| Home.HoursSumNonNegative | src/pages/Home.tsx:33-35 | non-negative hours give a non-negative sum |
| Home.TotalAbsencesRowByRow | src/pages/Home.tsx:33-35 | the total equals adding each absent row's hours and nothing for present rows |
| Home.TotalAbsencesConcat | src/pages/Home.tsx:33-35 | the total of two lists is the sum of their totals |
| Home.AbsenceVariant | src/pages/Home.tsx:110 | destructive if and only if the total exceeds 20 |
| Home.AbsenceAlertStays | src/pages/Home.tsx:110 | recording more attendance never clears the alert |
| Home.CompletedTracks | src/pages/Home.tsx:38 | at most the number of tracks, and all of them exactly when every track is at 100 |
| Home.CourseProgress | src/pages/Home.tsx:39-41 | 0 with no tracks; otherwise the integer nearest the mean percentage (half rounds up) |
| Home.PercentSumBounds | src/pages/Home.tsx:40 | the sum of percentages lies between count·min and count·max |
| Home.CourseProgressBetween | src/pages/Home.tsx:39-41 | course progress lies between the lowest and highest track percentage |
| Home.Initials | src/pages/Home.tsx:43-46 | at most two characters; "U" for a missing or empty name |
| Home.FirstCharsAreWordStarts | src/pages/Home.tsx:45 | the first characters of the split parts are exactly the characters that start a word |
| Home.InitialsAreWordStarts | src/pages/Home.tsx:43-46 | a non-empty name's initials are its first two word starts, upper-cased; runs of spaces add nothing |
| Home.BlankNameHasNoInitials | src/pages/Home.tsx:44-45 | a name of one space is not empty, so it gets no "U", and it has no word, so its initials are empty |
| ExamStats.FilteredExams | src/pages/Exams.tsx:25-28 | "all" returns the list unchanged; a type keeps exactly the exams of that type |
| ExamStats.TypeFiltersPartition | src/pages/Exams.tsx:25-28 | the four type views' sizes add up to the number of exams |
| ExamStats.GradeSumConcat | src/pages/Exams.tsx:33 | grade sums add over concatenation |
| ExamStats.Mean | src/pages/Exams.tsx:32-34 | null exactly for no exams; otherwise mean × count = sum of grades |
| ExamStats.AverageScore | src/pages/Exams.tsx:30-35 | null if and only if no exam has a grade |
| ExamStats.AverageIsSumOverCount | src/pages/Exams.tsx:31-34 | the average is the sum of the present grades divided by how many there are |
| ExamStats.AverageIgnoresUngraded | src/pages/Exams.tsx:31-34 | adding an ungraded exam leaves the average unchanged |
| ExamStats.AverageExample | src/pages/Exams.tsx:30-35 | grades 80 and 60 and one ungraded exam average to 70 |
| ExamStats.GradeSumBounds | src/pages/Exams.tsx:33 | a sum of grades lies between count·lo and count·hi |
| ExamStats.MeanBetween | src/pages/Exams.tsx:33-34 | a mean lies within bounds that every grade respects |
| ExamStats.AverageBetween | src/pages/Exams.tsx:30-35 | the average lies between the lowest and highest grade |
| ExamStats.GradedOfTypeEmptyIff | src/pages/Exams.tsx:40-41 | a type has no graded exams exactly when each exam is of another type or ungraded |
| ExamStats.AverageByType | src/pages/Exams.tsx:37-45 | four entries in the order quiz, midterm, final, speaking; the count is that type's graded exams; the average is null exactly when the count is 0, otherwise their mean |
| ExamStats.GradedCountsSplit | src/pages/Exams.tsx:40 | the graded exams of the four types add up to all graded exams |
| ExamStats.PerTypeCountsSum | src/pages/Exams.tsx:37-45 | the four per-type counts sum to the number of graded exams |
| ExamStats.GradeBand | src/pages/Exams.tsx:140 | success from 70, warning from 50 below 70, destructive below 50 |
| ExamStats.GradeBandMonotone | src/pages/Exams.tsx:140 | a higher grade never gets a worse colour |
| ProfilePage.AbsenceTone | src/pages/Profile.tsx:89 | destructive if and only if the absence total exceeds 20 |
| ProfilePage.AbsenceToneAgreesWithHome | src/pages/Profile.tsx:89 | the profile icon and the dashboard card raise the alert on the same attendance |
| ProfilePage.ExamAverages | src/pages/Profile.tsx:38-46 | four entries in fixed type order; an entry is null exactly when its type has no graded exam |
| ProfilePage.ExamAveragesMatchExamsPage | src/pages/Profile.tsx:38-46 | the profile's averages equal the exams page's per-type averages |
| ProfilePage.DisplayName | src/pages/Profile.tsx:77 | the header shows the profile's name when it has one, never empty text |
| ProfilePage.AvatarInitials | src/pages/Profile.tsx:48-51 | at most two characters; "U" without a profile or without a (non-empty) name |
| ProfilePage.InitialEditForm | src/pages/Profile.tsx:161-162 | the dialog starts with the profile's name or empty text, and its level or A1 |
| ProfilePage.SubmitEditProfile | src/pages/Profile.tsx:165-178 | a blank name is refused with "Name is required" and no update; otherwise the trimmed name and the chosen level are sent, and the dialog closes only if the update succeeds |
| ProfilePage.EditProfileSendsTrimmedName | src/pages/Profile.tsx:167-175 | saving the saved name again sends the same update |
| ProfilePage.SpacesOnlyNameRefused | src/pages/Profile.tsx:167-170 | a name of spaces only is refused |
| Validation.FirstFailure | src/pages/Auth.tsx:35-43 | none if and only if every check passes; otherwise the message of the first failing check |
| Validation.FirstFailureAppend | src/pages/Auth.tsx:63-72 | a failing prefix decides the result; a passing prefix leaves it to the later checks |
| Validation.EmailCheck | src/pages/Auth.tsx:13 | passes exactly for addresses zod accepts, with "Please enter a valid email" |
| Validation.PasswordCheck | src/pages/Auth.tsx:14 | passes exactly from 6 characters, with "Password must be at least 6 characters" |
| Validation.NameCheck | src/pages/Auth.tsx:15 | passes exactly from 2 characters, with "Name must be at least 2 characters" |
| Validation.ValidationError | src/pages/Auth.tsx:40 | the notice is the destructive "Validation Error" with the failing message |
| AuthPage.FriendlyMessage | src/pages/Auth.tsx:52-54 | "Invalid login credentials" becomes the friendly sentence; every other message passes unchanged |
| AuthPage.FriendlyMessageIdempotent | src/pages/Auth.tsx:52-54 | mapping twice is mapping once |
| AuthPage.FriendlyMessageOnlyMergesCredentials | src/pages/Auth.tsx:52-54 | the friendly sentence comes only from the credentials error or itself; other messages stay distinct |
| AuthPage.SignIn | src/pages/Auth.tsx:32-58 | calls sign-in if and only if the email is valid and the password has 6 characters; reports the email first, then the password; a failed call shows the friendly message; the form is untouched |
| AuthPage.SignUpFailure | src/pages/Auth.tsx:78-83 | an error containing "already registered" gives "Account exists"; any other gives "Sign up failed" with the message |
| AuthPage.SignUp | src/pages/Auth.tsx:60-87 | calls sign-up if and only if email, password and name (2 characters) pass, reported in that order; success gives "Welcome!" |
| AuthPage.SignUpRefinesSignIn | src/pages/Auth.tsx:63-72 | sign up refuses whatever sign in refuses, with the same notice |
| AuthPage.ExistingAccountNotice | src/pages/Auth.tsx:79-80 | "User already registered" gives the account-exists notice |
| AuthPage.RequestReset | src/pages/Auth.tsx:89-111 | only the email is validated; success shows "Check your email" and leaves the reset view; failure shows the message and stays |
| AuthPage.ResetIgnoresPassword | src/pages/Auth.tsx:92-99 | a reset link is requested even with a password sign in would refuse |
| ResetPassword.CheckSession | src/pages/ResetPassword.tsx:20-34 | without a session, "Invalid or expired link" is shown and the user is sent to /auth; with one, nothing happens |
| ResetPassword.UpdatePassword | src/pages/ResetPassword.tsx:36-63 | calls the update if and only if the password has 6 characters and matches the confirmation; length is reported before mismatch; success goes to /; an error shows its message and stays |
| ResetPassword.SentPasswordIsConfirmed | src/pages/ResetPassword.tsx:48-54 | the password sent equals both fields and passes the length check |
| ResetPassword.ShortBeatsMismatch | src/pages/ResetPassword.tsx:39-51 | a short, mismatched password is reported as short, not as mismatched |
| ResetPassword.NavigatesOnlyOnSuccess | src/pages/ResetPassword.tsx:57-62 | the page navigates if and only if the update was sent and succeeded |

## Left out

- TrackProgress.Completion: computed on exact rationals. The source computes `(learned / total) * 100` in IEEE doubles before `Math.round`, so a quotient that should be an exact half is assumed to round up.
- ExamStats.AverageScore: the average is an exact real. The `toFixed(1)` string the page shows is not modelled.
- ExamStats.AverageByType: the same applies to the per-type averages; the rounded one-decimal text is not modelled.
- ProfilePage.ExamAverages: same as above; `{avg || '-'}` display text is not modelled.
- TrackStore.TracksShown: `FetchFailed` stands for a query whose fetch failed with no earlier successful fetch. The query cache keeps the last successful data when a later refetch fails, so the page then still shows the previous list; that cache is not modelled.
- TrackProgress.FreshSession: takes every update to succeed, and the list to be refreshed, before the next tick. Overlapping requests and failed updates are not modelled.
- Rounding.Round: `Math.round` on doubles near the integer limits (and on NaN or infinite values) is not modelled.
- Text.UpperChar: maps ASCII letters only. Other letters with an upper-case form (such as 'é') are kept as they are, unlike `toUpperCase`.
- Text.Upper: upper-cases ASCII letters only. The full Unicode case mapping of `toUpperCase` (which can also change the length) is not modelled.
- Home.Initials: works on characters, where the source's `n[0]` and `slice(0, 2)` work on UTF-16 code units. For a word that starts outside the basic plane, such as "😀 Sam", the source takes only the high surrogate and the model takes the whole character.
- ProfilePage.AvatarInitials: the same code-unit difference, since it reuses `Home.Initials`.
- Validation.PasswordCheck: counts characters, not UTF-16 code units as zod does. Characters outside the basic plane count once here and twice in the source.
- Validation.NameCheck: same as above, length counted in characters.
- Validation.EmailCheck: whether an address is valid is zod's decision and is a parameter.
- AddForms.SubmitExam: the grade is `parseFloat` of the text, a parameter. NaN for non-numeric text is not modelled.
- AddForms.SubmitAttendance: the hours are `parseInt` of the text, a parameter. NaN is not modelled.
- Home.UpcomingExams: dates are integers compared with `>`. Parsing ISO date text (`parseISO`) and reading the clock are not modelled; `now` is a parameter.
- ProfilePage.InitialEditForm: gives the dialog's state at first mount. React keeps that state when the profile arrives later, so a dialog mounted before the profile loads still starts empty; that timing is not modelled.
- Backend calls, the query cache (`invalidateQueries`) and the notices the hooks show from `onSuccess`/`onError` (such as "Track added successfully!") are I/O and framework behaviour. Each call is reduced to its `Outcome`.
- The delete hooks and the thin exam/assignment/attendance/profile hooks just forward to the backend. Their user guard and `user_id` attachment follow the same pattern as `TrackStore.CreateTrack`. Their server-side ordering appears only as the `Home.LatestFirst` precondition.
- Pending/loading flags, the redirect after sign-in (a session listener), sign-out, and rendering, styling and colour classes are presentation or asynchronous behaviour.
- The browser's own form validation (`required`, `min`, `max` on inputs) runs before the handlers and is not part of the modelled code.
- Round-tripping a track through the backend's JSON column depends on the column type and the client library, which are not part of this model. `TrackStore.NormaliseStored` covers only the read side.

## Findings

| source | as written | input that shows it | evidently intended | confidence | as-written member | corrected member |
|---|---|---|---|---|---|---|
| src/pages/Tracks.tsx:86-98 | `toggleVocabulary` builds every update from `track`, the `selectedTrack` state captured when the card was clicked (line 48). A successful update only invalidates the list query, so the dialog's copy, and the checkboxes drawn from it (lines 139-141), never change | a track whose word 0 is unlearned: ticking box 0 twice sends "learned" twice, so the word stays learned; ticking box 0 and then box 1 stores word 0 unlearned again | each tick starts from the track as last stored, so a second tick undoes the first and ticks on different boxes accumulate | not executed; high (the dialog never reads the refreshed list) | TrackProgress.StaleSession, with TrackProgress.StaleTickTwiceKeepsFlip and TrackProgress.StaleSessionLosesEarlierTick | TrackProgress.FreshSession, with TrackProgress.FreshSessionFlipsPerTick, TrackProgress.FreshTickTwiceRestores and TrackProgress.FreshSessionKeepsEarlierTick |
