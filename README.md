# TeachForward core, modelled in Dafny

TeachForward is a tutoring platform with a FastAPI backend and a React front end. This project
models its computational core and proves properties of the model:

- **The grade tracker page** (`GradeModel`, `GradesView`). Each component's average is the mean
  of score/max·100 over its entries. A course grade is the weight-normalised mean of the averages
  of the components that have entries. On top of these sit the credit-weighted GPA, the average
  of the course grades above 0 (shown as "N/A" when none is positive), the two grade tables
  (GPA points and letters) and the "Hh Mm" study-time label.
- **The grade router of the API** (`GradesApi`, `StudySessions`). The course grade report has
  a per-component breakdown. The overall average grade is stored in the progress record. The
  study-session rule allows one running session per student, and the study hours are derived
  from the closed sessions.
- **The AI router's deterministic fallbacks** (`AiFallback`). These are the summaries, flashcards,
  quiz, concept map and note sections built when no language model answers. The module also
  covers the message list of the tutor chat and the PDF upload checks.
- **The WebSocket connection registry** (`Connections`). It maps each user id to that user's
  open sockets and routes an incoming chat message to a receiver and its sender, or to everyone.
- **The CRUD helpers** (`Crud`, `ProgressRecords`). These are the 72-character password
  truncation before bcrypt, the Zoom-style link of a new booking, session status updates, and
  the progress record's completed-session count and floor-average grade.
- **The study-tools page's editors** (`StudyTools`). These are the manual quiz builder, the
  personal-note editor with its sections and subsections, the parsed-note list and the chat
  panel's ten-message history window.
- **The sign-up stepper** (`Registration`). It has three steps, ordered checks on the first
  step, and a terms gate on the final submit.

Where the source changes state step by step, the model does too:

- the connection manager, the progress store, the study log, the three editors of the
  study-tools page and the registration form are classes whose methods modify their fields;
- each accumulating loop of the source (component totals, GPA points, breakdown rows, card,
  question, node, section and page loops) is a method with a `while` loop proved against a
  specification function.

Pure expressions of the source are functions. The helper modules
`Seqs` (Option, Response, Filter, Take, LastN, RemoveAt) and `Text` (white space, `strip`,
`split`/`join`, decimal rendering) give the Python and JavaScript string operations the core uses.

The database becomes sequences and maps that are passed in or held in fields. The clock, and the
random draws of a meeting id, are parameters. The availability of an OpenAI client and the
reply of the chat endpoint are parameters too.

## Model

| member | source | states |
|---|---|---|
| GradeModel.EntriesOf | frontend/teachforward-frontend/src/pages/Grades/Grades.tsx:314 | the entries of a component all carry its id, and keep their validity and range |
| GradeModel.PercentInRange | frontend/teachforward-frontend/src/pages/Grades/Grades.tsx:319 | an entry scored between 0 and its maximum is a percentage in [0, 100] |
| GradeModel.SumPercentRange | frontend/teachforward-frontend/src/pages/Grades/Grades.tsx:318-320 | the summed percentages of n in-range entries lie in [0, 100·n] |
| GradeModel.AverageInRange | frontend/teachforward-frontend/src/pages/Grades/Grades.tsx:318-320 | a component average over in-range entries lies in [0, 100] |
| GradeModel.AverageAbsentIff | frontend/teachforward-frontend/src/pages/Grades/Grades.tsx:314-316 | a component has no average exactly when no entry carries its id |
| GradeModel.SumPercentFull | frontend/teachforward-frontend/src/pages/Grades/Grades.tsx:318-320 | full marks on n entries sum to exactly 100·n |
| GradeModel.FullMarksAverage | frontend/teachforward-frontend/src/pages/Grades/Grades.tsx:318-320 | full marks on every entry make the component average exactly 100 |
| GradeModel.SumPercentConcat | frontend/teachforward-frontend/src/pages/Grades/Grades.tsx:318-320 | the sum of percentages over two lists joined is the sum of the two sums |
| GradeModel.SumPercentRemove | frontend/teachforward-frontend/src/pages/Grades/Grades.tsx:318-320 | taking any one entry out subtracts exactly its percentage from the sum |
| GradeModel.SumPercentPermutation | frontend/teachforward-frontend/src/pages/Grades/Grades.tsx:318-320 | two entry lists with the same multiset have the same sum of percentages |
| GradeModel.AverageOrderInvariant | frontend/teachforward-frontend/src/pages/Grades/Grades.tsx:314-320 | reordering the entries leaves every component average unchanged |
| GradesView.GradeOfTotals | frontend/teachforward-frontend/src/pages/Grades/Grades.tsx:309-327 | a list of components grades to the weighted total over the weight total, or 0 without weight |
| GradesView.CalculateCourseGrade | frontend/teachforward-frontend/src/pages/Grades/Grades.tsx:305-328 | the accumulating loop over the course's components returns the weight-normalised course grade |
| GradesView.PartsOfPresent | frontend/teachforward-frontend/src/pages/Grades/Grades.tsx:316-324 | a component with entries adds its average times its weight, and its weight, to the totals |
| GradesView.TotalsStep | frontend/teachforward-frontend/src/pages/Grades/Grades.tsx:312-325 | each loop step adds exactly that component's parts to both totals |
| GradesView.TotalsConcat | frontend/teachforward-frontend/src/pages/Grades/Grades.tsx:312-325 | both totals of two component lists joined are the sums of their totals |
| GradesView.TotalsSingle | frontend/teachforward-frontend/src/pages/Grades/Grades.tsx:312-325 | the totals of one component are its own parts |
| GradesView.NoComponentsGradeZero | frontend/teachforward-frontend/src/pages/Grades/Grades.tsx:306-307 | a course with no components has grade 0 |
| GradesView.TotalsInsertEmpty | frontend/teachforward-frontend/src/pages/Grades/Grades.tsx:316-325 | a component without entries adds nothing to either total, wherever it stands |
| GradesView.ComponentsInsert | frontend/teachforward-frontend/src/pages/Grades/Grades.tsx:306 | an inserted component joins the course's components, in place, exactly when it belongs to the course |
| GradesView.EmptyComponentIgnored | frontend/teachforward-frontend/src/pages/Grades/Grades.tsx:312-327 | inserting a component that has no entries leaves every course grade unchanged |
| GradesView.TotalsBounds | frontend/teachforward-frontend/src/pages/Grades/Grades.tsx:309-325 | with positive weights and in-range entries, 0 <= weighted total <= 100·weight total |
| GradesView.FilterPositiveWeights | frontend/teachforward-frontend/src/pages/Grades/Grades.tsx:306 | a course's components keep the positive weights of the full list |
| GradesView.CourseGradeInRange | frontend/teachforward-frontend/src/pages/Grades/Grades.tsx:305-328 | with positive weights and in-range entries a course grade lies in [0, 100] |
| GradesView.PopulatedComponentsOnly | frontend/teachforward-frontend/src/pages/Grades/Grades.tsx:312-327 | weight 30 at 100% beside an empty weight-70 component gives exactly 100 |
| GradesView.GradeToGPA | frontend/teachforward-frontend/src/pages/Grades/Grades.tsx:357-369 | the GPA points lie in [0, 4]; 0.0 exactly below 65, 4.0 exactly from 93 |
| GradesView.GradeToLetter | frontend/teachforward-frontend/src/pages/Grades/Grades.tsx:371-383 | "F" exactly below 65, "A" exactly from 93 |
| GradesView.TierFrom | frontend/teachforward-frontend/src/pages/Grades/Grades.tsx:357-383 | the tier is the first inclusive lower bound the percentage reaches, searching from tier i |
| GradesView.GPAFollowsTiers | frontend/teachforward-frontend/src/pages/Grades/Grades.tsx:357-369 | the GPA points are the points of the percentage's tier in the shared bound table |
| GradesView.LetterFollowsTiers | frontend/teachforward-frontend/src/pages/Grades/Grades.tsx:371-383 | the letter is the letter of the percentage's tier in the shared bound table |
| GradesView.TablesAgree | frontend/teachforward-frontend/src/pages/Grades/Grades.tsx:357-383 | both functions read the same row of one table of bounds 93/90/87/83/80/77/73/70/67/65 |
| GradesView.TierFromMonotone | frontend/teachforward-frontend/src/pages/Grades/Grades.tsx:357-383 | a higher percentage never lands in a later tier |
| GradesView.TierPointsAntitone | frontend/teachforward-frontend/src/pages/Grades/Grades.tsx:357-369 | later tiers are worth no more points |
| GradesView.TablesMonotone | frontend/teachforward-frontend/src/pages/Grades/Grades.tsx:357-383 | a higher percentage gets a tier no worse and GPA points no lower |
| GradesView.BoundsInclusive | frontend/teachforward-frontend/src/pages/Grades/Grades.tsx:357-373 | 93 is "A" worth 4.0, and anything in [90, 93) is "A-" worth 3.7 |
| GradesView.CourseGrades | frontend/teachforward-frontend/src/pages/Grades/Grades.tsx:349 | one grade per course |
| GradesView.CourseGradesAt | frontend/teachforward-frontend/src/pages/Grades/Grades.tsx:349 | the i-th grade is the grade of the i-th course |
| GradesView.ScaledIsProduct | frontend/teachforward-frontend/src/pages/Grades/Grades.tsx:339 | adding the points once per credit is the product of points and credits |
| GradesView.ScaledBounds | frontend/teachforward-frontend/src/pages/Grades/Grades.tsx:339 | points in [lo, hi] scaled by k credits lie in [lo·k, hi·k] |
| GradesView.PointsStep | frontend/teachforward-frontend/src/pages/Grades/Grades.tsx:336-341 | each loop step adds that course's points to the points total and its credits to the credits |
| GradesView.CoursePoints | frontend/teachforward-frontend/src/pages/Grades/Grades.tsx:337-339 | one course's GPA points times its credits |
| GradesView.CalculateOverallGPA | frontend/teachforward-frontend/src/pages/Grades/Grades.tsx:330-344 | the accumulating loop over the courses returns the credit-weighted mean of the GPA points, 0 without courses or credits |
| GradesView.TotalPointsBounds | frontend/teachforward-frontend/src/pages/Grades/Grades.tsx:333-341 | the points total lies in [0, 4·credits] |
| GradesView.OverallGPAInRange | frontend/teachforward-frontend/src/pages/Grades/Grades.tsx:330-344 | the overall GPA lies in [0, 4] |
| GradesView.SingleCourseGPA | frontend/teachforward-frontend/src/pages/Grades/Grades.tsx:330-344 | one course with credits gives its own GPA points, whatever the number of credits |
| GradesView.SumPositive | frontend/teachforward-frontend/src/pages/Grades/Grades.tsx:354 | a non-empty sum of positive grades is positive |
| GradesView.PositiveMeanZeroIff | frontend/teachforward-frontend/src/pages/Grades/Grades.tsx:350-354 | the mean of the positive grades is never negative, and is 0 exactly when no grade is positive |
| GradesView.OverallAverageGrade | frontend/teachforward-frontend/src/pages/Grades/Grades.tsx:346-355 | the overall average is never negative, and is 0 exactly when no course grade is positive |
| GradesView.OverallAverageZeroIff | frontend/teachforward-frontend/src/pages/Grades/Grades.tsx:346-355 | the overall average is 0 exactly when no course has a positive grade |
| GradesView.NotApplicableIff | frontend/teachforward-frontend/src/pages/Grades/Grades.tsx:456-459 | the page shows "N/A" exactly when no course has a positive grade |
| GradesView.TableRow | frontend/teachforward-frontend/src/pages/Grades/Grades.tsx:583-587 | a table row has entries exactly when its count is positive and the component has an average, which it shows; 0 otherwise |
| GradesView.StudyTimeParts | frontend/teachforward-frontend/src/pages/Grades/Grades.tsx:390-393 | minutes below 60, and hours·3600 + minutes·60 is the last whole minute at or before the seconds |
| GradesView.FormatStudyTime | frontend/teachforward-frontend/src/pages/Grades/Grades.tsx:390-394 | the label of s seconds reads back as ⌊s/3600⌋ hours and the remaining whole minutes |
| GradesView.LabelReadsBack | frontend/teachforward-frontend/src/pages/Grades/Grades.tsx:390-394 | splitting the label at "h " gives back the decimal hours, then the minutes followed by "m" |
| GradesView.SameMinuteSameLabel | frontend/teachforward-frontend/src/pages/Grades/Grades.tsx:390-394 | two amounts of seconds in the same whole minute get the same label |
| GradesApi.ReportPartsPresent | backend/app/routers/grades.py:213-226 | a component with entries adds avg·weight/100, its weight, and a row describing it |
| GradesApi.ReportStep | backend/app/routers/grades.py:208-226 | each loop step extends the three accumulators by that component's parts |
| GradesApi.CalculateCourseGrade | backend/app/routers/grades.py:201-238 | the loop returns the report of the components; a course without components gets no grade and no breakdown |
| GradesApi.BreakdownRows | backend/app/routers/grades.py:208-226 | one row per component with entries, in component order, with its name, weight, average, contribution avg·w/100 and entry count |
| GradesApi.WeightedGradeIsScaled | backend/app/routers/grades.py:213-217 | the API's weighted grade is the page's weighted total over 100 |
| GradesApi.RawGradeIsPageGrade | backend/app/routers/grades.py:228-232 | (Σ avg·w/100)/Σw·100 equals the page's Σ avg·w/Σw; None exactly when there is no weight, where the page shows 0 |
| GradesApi.ReportAgreesWithPage | backend/app/routers/grades.py:228-235 | the reported grade is the page's grade, except that a page grade of 0 is reported as None |
| GradesApi.ZeroGradeReportedAsNone | backend/app/routers/grades.py:234-235 | a course graded exactly 0 is reported with no grade, though its breakdown lists the component |
| GradesApi.ComponentTotals | backend/app/routers/grades.py:341-352 | the inner loop returns the weighted grade and the total weight of the course's components |
| GradesApi.CourseGradeOf | backend/app/routers/grades.py:334-356 | a course contributes its grade exactly when it has components with weight, a grade of 0 included |
| GradesApi.CollectedStep | backend/app/routers/grades.py:333-356 | each outer step appends that course's grade, if any, to the collected list |
| GradesApi.UpdateAverageGrade | backend/app/routers/grades.py:328-369 | the student's record, created if missing, gets int of the mean of the collected grades, or None; nothing else changes |
| GradesApi.AverageGradeInRange | backend/app/routers/grades.py:364-367 | for collected grades each in [0, 100], the average exists exactly when some grade was collected, and is a whole percentage in [0, 100] |
| GradesApi.CollectedGradeInRange | backend/app/routers/grades.py:341-356 | with entry scores between 0 and their maximum and positive weights, a course's collected grade is the page's course grade and lies in [0, 100] |
| GradesApi.CollectedGradesInRange | backend/app/routers/grades.py:333-356 | under the same conditions every collected grade lies in [0, 100] |
| GradesApi.StoredAverageInRange | backend/app/routers/grades.py:333-367 | under the same conditions the stored average exists exactly when some grade was collected, and is a whole percentage in [0, 100] |
| GradesApi.ZeroGradeCoursesCount | backend/app/routers/grades.py:354-365 | grades 0 and 100 average to 50 in the API but to 100 on the page |
| StudySessions.MinutesBetween | backend/app/routers/grades.py:283-284 | the whole minutes elapsed, truncated toward zero |
| StudySessions.FirstOpen | backend/app/routers/grades.py:250-253 | the first session of the student that is still running, or None exactly when none is |
| StudySessions.Start | backend/app/routers/grades.py:249-266 | refused with 400 exactly when a session is running; otherwise one running session is appended |
| StudySessions.End | backend/app/routers/grades.py:274-285 | refused with 404 exactly when nothing is running; otherwise the running session is closed with its minutes |
| StudySessions.Active | backend/app/routers/grades.py:298-306 | the running session of the student, or 404 exactly when there is none |
| StudySessions.StudyHoursReport | backend/app/routers/grades.py:314-324 | the stored whole hours and sixty times as many minutes; zeros without a record |
| StudySessions.StudyLog.StartSession | backend/app/routers/grades.py:242-266 | the session table after Start, with a fresh id consumed only on success |
| StudySessions.StudyLog.EndSession | backend/app/routers/grades.py:268-285 | the session table after End |
| StudySessions.UpdateStudyHours | backend/app/routers/grades.py:371-386 | the student's record, created if missing, holds the whole hours of the summed minutes |
| StudySessions.EndStudySessionAsWritten | backend/app/routers/grades.py:268-290 | refused with 404 when nothing is running; otherwise the close is kept but the answer is a 500 and the hours are never written |
| StudySessions.EndStudySession | backend/app/routers/grades.py:268-290 | the close is kept, and on success the study hours are brought up to date |
| StudySessions.OpenUnique | backend/app/routers/grades.py:250-256 | with at most one running session per student, the running one is the session found |
| StudySessions.StartKeepsOneOpen | backend/app/routers/grades.py:250-266 | starting keeps every student at no more than one running session |
| StudySessions.EndKeepsOneOpen | backend/app/routers/grades.py:274-285 | ending keeps every student at no more than one running session |
| StudySessions.EndClosesTheSession | backend/app/routers/grades.py:274-285 | after an end nothing is running, so a second end is refused with 404 |
| StudySessions.StartThenEnd | backend/app/routers/grades.py:258-284 | a session started at t0 and ended at t1 >= t0 reports the whole minutes between them |
| StudySessions.TotalMinutesNonNegative | backend/app/routers/grades.py:373-378 | with no negative durations the summed minutes are not negative |
| StudySessions.StudyHoursFloor | backend/app/routers/grades.py:385 | the stored hours h satisfy 60·h <= minutes < 60·(h+1) |
| StudySessions.EndAddsMinutes | backend/app/routers/grades.py:282-288 | closing a session adds its minutes to its student's total and to no one else's |
| StudySessions.StudyHoursNeverStored | backend/app/routers/grades.py:371-386 | after a one-hour session the hours stay 0 as written, and become 1 as intended |
| ProgressRecords.WithRecord | backend/app/crud.py:113-120 | the student's record exists afterwards; an existing table is unchanged, otherwise only a zeroed record is added |
| ProgressRecords.WithRecordIdempotent | backend/app/crud.py:113-120 | looking a record up twice creates it at most once |
| ProgressRecords.ProgressStore.GetOrCreate | backend/app/crud.py:113-120 | returns the existing record, or inserts and returns a zeroed one |
| ProgressRecords.ProgressStore.Save | backend/app/crud.py:141-144 | writes back one record and changes no other |
| Crud.HashInput | backend/app/crud.py:14-20 | the hashed password is the prefix of length min(len, 72), unchanged up to 72 characters |
| Crud.HashThenVerify | backend/app/crud.py:14-30 | a password verifies against its own hash |
| Crud.VerifyIffSamePrefix | backend/app/crud.py:25-30 | a password verifies exactly when its first 72 characters are those of the hashed one |
| Crud.LongPasswordTailIgnored | backend/app/crud.py:18-30 | characters after the 72nd are ignored: a different, longer password verifies |
| Crud.MeetingId | backend/app/crud.py:63 | one decimal digit per draw, each the digit of its draw |
| Crud.ZoomLink | backend/app/crud.py:63-64 | the link is "https://zoom.us/j/" followed by exactly 11 digits |
| Crud.ZoomLinkRoundTrip | backend/app/crud.py:63-64 | the draws can be read back from the link's digits |
| Crud.CreateSession | backend/app/crud.py:59-77 | the booking carries the request's fields, status "scheduled" and a well-formed link |
| Crud.UpdateSessionStatus | backend/app/crud.py:85-91 | every booking with the id gets the status, others unchanged; the returned booking is the updated first booking with the id, None exactly when there is none |
| Crud.UpdatedAtUniqueId | backend/app/crud.py:85-91 | when booking ids are unique, updating the booking at one position replaces that booking alone, with the new status |
| Crud.CompletingCountsOnce | backend/app/crud.py:125-128 | when booking ids are unique, completing a booking of the student that is not yet completed adds exactly one to their completed count |
| Crud.CompletingAgainUnchanged | backend/app/crud.py:85-91 | when booking ids are unique, completing a booking that is already completed changes no booking and leaves every completed count as it was |
| Crud.DigitGrades | backend/app/crud.py:137 | empty exactly when no submission has a non-empty all-digit grade |
| Crud.FloorAverage | backend/app/crud.py:135-139 | None exactly without digit grades; otherwise v with v·n <= sum < (v+1)·n |
| Crud.FloorAverageAtMost | backend/app/crud.py:137-139 | with every digit grade at most hi, the average is at most hi |
| Crud.FloorAverageExample | backend/app/crud.py:135-139 | grades "A", "", "90" and "81" average to 85 |
| Crud.UpdateProgress | backend/app/crud.py:122-146 | the record, created if missing, gets the completed-booking count and the floor average; nothing else changes |
| Crud.UpdateProgressIdempotent | backend/app/crud.py:122-146 | updating the progress twice gives the table that one update gives |
| AiFallback.LeadingSentencesPrefix | backend/app/routers/ai.py:56-61 | for a stripped non-blank text the leading sentences are a non-blank prefix of it, so the 200-character branch is never taken |
| AiFallback.NoFullStopWholeText | backend/app/routers/ai.py:57-58 | a stripped text without a full stop is its own summary |
| AiFallback.Summarize | backend/app/routers/ai.py:48-61 | 400 exactly for blank text; otherwise the first two sentences, a non-blank prefix of the stripped text |
| AiFallback.SummarizeText | backend/app/routers/ai.py:298-311 | 400 exactly for blank text; otherwise the first three sentences with no key points |
| AiFallback.NonBlankStripped | backend/app/routers/ai.py:92 | no more pieces than given, each non-empty and starting with a non-space |
| AiFallback.NonBlankStrippedEmpty | backend/app/routers/ai.py:92 | nothing survives exactly when every piece is blank |
| AiFallback.NonBlankHasPieces | backend/app/routers/ai.py:137 | a non-blank text split at a blank separator keeps at least one piece |
| AiFallback.NonBlankLines | backend/app/routers/ai.py:85-92 | a non-blank request has at least one line |
| AiFallback.CardsOf | backend/app/routers/ai.py:93-95 | card k is "Key point k+1" with the first 120 characters of line k |
| AiFallback.Flashcards | backend/app/routers/ai.py:83-96 | 400 exactly for blank text; otherwise one card for each of the first six lines, at least one |
| AiFallback.LineQuestion | backend/app/routers/ai.py:140-144 | four options, the first the line's first 30 characters, answer 0, and a question quoting the line's start |
| AiFallback.QuestionsOf | backend/app/routers/ai.py:138-144 | one question for each of the first five lines |
| AiFallback.GenerateQuiz | backend/app/routers/ai.py:128-145 | 400 exactly for blank text; otherwise a question for each of the first five lines |
| AiFallback.ChainOf | backend/app/routers/ai.py:191-196 | nodes 0..n-1 labelled with the lines' first 40 characters and edges i-1 -> i, for n = min(8, lines) |
| AiFallback.ChainWellFormed | backend/app/routers/ai.py:193-196 | every edge joins two existing nodes, node k has id k, and every label has at most 40 characters |
| AiFallback.ConceptMap | backend/app/routers/ai.py:181-197 | 400 exactly for blank text; otherwise the chain of the first eight lines |
| AiFallback.SectionIdsDistinct | backend/app/routers/ai.py:391 | different positions give different section ids |
| AiFallback.SectionsOf | backend/app/routers/ai.py:388-395 | section i has id "section-i", title "Section i+1", the paragraph and no subsections, for the first five paragraphs |
| AiFallback.NonBlankParagraphs | backend/app/routers/ai.py:387 | non-blank content has at least one paragraph |
| AiFallback.ParseNotes | backend/app/routers/ai.py:375-396 | 400 exactly when the title or the content is blank; otherwise at least one section, as above |
| AiFallback.ChatMessages | backend/app/routers/ai.py:344-373 | 503 without a client, and 500 "Chat failed: 'NoneType' object is not subscriptable" for a null history; otherwise the system prompt, the last ten history items with defaults, then the message: at most 12 |
| AiFallback.PagesTextBlank | backend/app/routers/ai.py:448-453 | the gathered text is blank exactly when every page is |
| AiFallback.CollectPages | backend/app/routers/ai.py:448-451 | the page loop gathers every page's text followed by a blank line |
| AiFallback.ExtractPdfAsWritten | backend/app/routers/ai.py:435-458 | a name not ending in ".pdf" gets 400, a PDF without text gets 500, and a PDF with a non-blank page succeeds with the stripped text and the page count |
| AiFallback.ExtractPdf | backend/app/routers/ai.py:435-456 | 400 exactly for a non-PDF name or a PDF without text; otherwise the stripped, non-blank text and the page count |
| AiFallback.ScannedPdfAnswers | backend/app/routers/ai.py:441-458 | one empty page: 500 as written, 400 as intended |
| Connections.FirstIndex | backend/app/routers/ws.py:23 | the position of the first occurrence of the socket |
| Connections.RemoveFirst | backend/app/routers/ws.py:23 | removes the first occurrence of the socket, and nothing when it is absent |
| Connections.RemoveFirstMultiset | backend/app/routers/ws.py:23 | removing takes exactly one copy of the socket out of the list |
| Connections.Connected | backend/app/routers/ws.py:14-18 | the user's list is the old one (or empty) with the socket last; other users unchanged |
| Connections.Disconnected | backend/app/routers/ws.py:20-27 | an unknown user or socket changes nothing; otherwise one copy is removed and the key goes when the list empties; other users unchanged |
| Connections.ConnectionManager.constructor | backend/app/routers/ws.py:11-12 | the registry starts empty |
| Connections.ConnectionManager.Connect | backend/app/routers/ws.py:14-18 | the registry after Connected, still without empty lists or repeated keys |
| Connections.ConnectionManager.Disconnect | backend/app/routers/ws.py:20-27 | the registry after Disconnected, still without empty lists or repeated keys |
| Connections.ConnectionManager.BroadcastTargets | backend/app/routers/ws.py:29-39 | the loop over a snapshot of the keys reaches exactly the registered sockets |
| Connections.ConnectionManager.Route | backend/app/routers/ws.py:52-78 | with a truthy receiver the receiver's sockets then the sender's; otherwise, and for non-JSON text, a broadcast |
| Connections.ConnectKeepsRegistry | backend/app/routers/ws.py:14-18 | connecting keeps every list non-empty and the key order exact |
| Connections.DisconnectKeepsRegistry | backend/app/routers/ws.py:20-27 | disconnecting keeps every list non-empty and the key order exact |
| Connections.ConnectThenDisconnect | backend/app/routers/ws.py:14-27 | connecting a socket and disconnecting it restores the registry and its key order |
| Connections.AllTargetsMembers | backend/app/routers/ws.py:37-39 | a socket is targeted exactly when it is registered under one of the keys |
| Connections.BroadcastReachesAll | backend/app/routers/ws.py:37-39 | a broadcast reaches exactly the sockets of the registered users |
| Connections.MessageToSelfSentTwice | backend/app/routers/ws.py:69-71 | a message addressed to its own sender reaches each of the sender's sockets twice |
| Connections.ReceiverZeroBroadcasts | backend/app/routers/ws.py:69-73 | a receiver id of 0 or "" is falsy and broadcasts; 7 is sent to "7" |
| StudyTools.CompleteQuestionsExactly | frontend/teachforward-frontend/src/pages/StudyTools/StudyTools.tsx:388-390 | the saved questions are exactly the complete ones: all complete, each from the list, none missing |
| StudyTools.EditQuestion | frontend/teachforward-frontend/src/pages/StudyTools/StudyTools.tsx:415-420 | only the named field or the option K changes |
| StudyTools.FilledQuestionComplete | frontend/teachforward-frontend/src/pages/StudyTools/StudyTools.tsx:388-390 | filling an empty question and its four options with non-blank text makes it complete |
| StudyTools.EmptyQuestionShape | frontend/teachforward-frontend/src/pages/StudyTools/StudyTools.tsx:145-149 | the blank question has four options and answer 0 |
| StudyTools.CompleteQuestionsFourOptions | frontend/teachforward-frontend/src/pages/StudyTools/StudyTools.tsx:388-401 | filtering, and building a quiz, keep every question at four options |
| StudyTools.EditedQuestions | frontend/teachforward-frontend/src/pages/StudyTools/StudyTools.tsx:413-422 | only the question at the index changes |
| StudyTools.ManualQuizEditor.constructor | frontend/teachforward-frontend/src/pages/StudyTools/StudyTools.tsx:143-149 | no quizzes, no topic and one blank question |
| StudyTools.ManualQuizEditor.AddQuestion | frontend/teachforward-frontend/src/pages/StudyTools/StudyTools.tsx:409-411 | appends one blank question and changes nothing else |
| StudyTools.ManualQuizEditor.UpdateQuestion | frontend/teachforward-frontend/src/pages/StudyTools/StudyTools.tsx:413-422 | edits the question at the index and changes nothing else |
| StudyTools.ManualQuizEditor.AddManualQuiz | frontend/teachforward-frontend/src/pages/StudyTools/StudyTools.tsx:382-407 | a blank topic, then no complete question, is refused with its message; otherwise the quiz of the complete questions is appended and the builder reset |
| StudyTools.QuizzesFourOptions | frontend/teachforward-frontend/src/pages/StudyTools/StudyTools.tsx:403 | appending a four-option quiz keeps every quiz at four options |
| StudyTools.WithoutNote | frontend/teachforward-frontend/src/pages/StudyTools/StudyTools.tsx:510-512 | every note with the id goes, every other note stays |
| StudyTools.WithoutNoteIdempotent | frontend/teachforward-frontend/src/pages/StudyTools/StudyTools.tsx:510-512 | deleting twice is deleting once, and an unknown id changes nothing |
| StudyTools.WithoutPersonalNote | frontend/teachforward-frontend/src/pages/StudyTools/StudyTools.tsx:528-530 | every personal note with the id goes, every other stays |
| StudyTools.SpliceOne | frontend/teachforward-frontend/src/pages/StudyTools/StudyTools.tsx:572 | splice(start, 1): removes the element at start, counting from the end when negative and from the first element below -length, nothing past the end |
| StudyTools.WithoutIndex | frontend/teachforward-frontend/src/pages/StudyTools/StudyTools.tsx:546 | removes exactly the element at the index and keeps the others in order |
| StudyTools.UpdatedSection | frontend/teachforward-frontend/src/pages/StudyTools/StudyTools.tsx:539-543 | only the given field of the given section changes |
| StudyTools.AddedSubsection | frontend/teachforward-frontend/src/pages/StudyTools/StudyTools.tsx:549-557 | one empty subsection is appended to the chosen section only |
| StudyTools.UpdatedSubsection | frontend/teachforward-frontend/src/pages/StudyTools/StudyTools.tsx:559-568 | only the given field of the given subsection changes |
| StudyTools.DeletedSubsection | frontend/teachforward-frontend/src/pages/StudyTools/StudyTools.tsx:570-574 | only the chosen section loses one subsection, as splice removes it |
| StudyTools.AddThenDeleteSubsection | frontend/teachforward-frontend/src/pages/StudyTools/StudyTools.tsx:549-574 | adding a subsection and deleting it restores the sections |
| StudyTools.AddThenDeleteSection | frontend/teachforward-frontend/src/pages/StudyTools/StudyTools.tsx:532-547 | adding a section and deleting it restores the sections |
| StudyTools.PersonalNoteEditor.constructor | frontend/teachforward-frontend/src/pages/StudyTools/StudyTools.tsx:176-184 | no notes, no title and one empty section |
| StudyTools.PersonalNoteEditor.AddPersonalNote | frontend/teachforward-frontend/src/pages/StudyTools/StudyTools.tsx:515-526 | appends the note with the sections that have text, and resets the editor to one empty section |
| StudyTools.PersonalNoteEditor.DeletePersonalNote | frontend/teachforward-frontend/src/pages/StudyTools/StudyTools.tsx:528-530 | removes the notes with the id and changes nothing else |
| StudyTools.PersonalNoteEditor.AddSection | frontend/teachforward-frontend/src/pages/StudyTools/StudyTools.tsx:532-537 | appends one empty section with a fresh id |
| StudyTools.PersonalNoteEditor.UpdateSection | frontend/teachforward-frontend/src/pages/StudyTools/StudyTools.tsx:539-543 | sets one field of one section |
| StudyTools.PersonalNoteEditor.DeleteSection | frontend/teachforward-frontend/src/pages/StudyTools/StudyTools.tsx:545-547 | removes the section at the index |
| StudyTools.PersonalNoteEditor.AddSubsection | frontend/teachforward-frontend/src/pages/StudyTools/StudyTools.tsx:549-557 | appends one empty subsection to one section |
| StudyTools.PersonalNoteEditor.UpdateSubsection | frontend/teachforward-frontend/src/pages/StudyTools/StudyTools.tsx:559-568 | sets one field of one subsection |
| StudyTools.PersonalNoteEditor.DeleteSubsection | frontend/teachforward-frontend/src/pages/StudyTools/StudyTools.tsx:570-574 | removes one subsection of one section |
| StudyTools.SavedSectionsHaveText | frontend/teachforward-frontend/src/pages/StudyTools/StudyTools.tsx:519-524 | a saved note keeps exactly the sections with a title or content, and the reset section alone would be dropped |
| StudyTools.ChatPanel.constructor | frontend/teachforward-frontend/src/pages/StudyTools/StudyTools.tsx:159-163 | the greeting alone, empty input, not sending |
| StudyTools.ChatPanel.SendMessage | frontend/teachforward-frontend/src/pages/StudyTools/StudyTools.tsx:316-336 | blank input sends nothing and changes nothing; otherwise the message is appended and the request holds the last ten earlier messages |
| StudyTools.ChatPanel.ReceiveReply | frontend/teachforward-frontend/src/pages/StudyTools/StudyTools.tsx:338-358 | appends the reply, or the apology on failure, and stops sending |
| StudyTools.HistoryWindowStable | frontend/teachforward-frontend/src/pages/StudyTools/StudyTools.tsx:334 | the window holds at most ten messages, and taking the last ten of it again leaves it as it is |
| StudyTools.HistoryForwarded | frontend/teachforward-frontend/src/pages/StudyTools/StudyTools.tsx:334 | the server's ten-item window keeps the whole posted history, and each item reaches the model with its on-screen role and text (ai.py:357-358) |
| Registration.BasicInfoError | frontend/teachforward-frontend/src/pages/Auth/Register.tsx:84-97 | missing fields first, then a mismatch, then a short password, each reported exactly when the earlier checks pass |
| Registration.CheckOrderExamples | frontend/teachforward-frontend/src/pages/Auth/Register.tsx:84-97 | a short mistyped password is a mismatch; an empty first name hides every other problem |
| Registration.RegistrationForm.constructor | frontend/teachforward-frontend/src/pages/Auth/Register.tsx:33-61 | step 0, no error, empty fields, terms not accepted |
| Registration.RegistrationForm.Next | frontend/teachforward-frontend/src/pages/Auth/Register.tsx:83-102 | on step 0 a failed check sets its message and keeps the step; otherwise the error clears and the step advances by one |
| Registration.RegistrationForm.Back | frontend/teachforward-frontend/src/pages/Auth/Register.tsx:104-106 | the step decreases by one and nothing else changes |
| Registration.RegistrationForm.Submit | frontend/teachforward-frontend/src/pages/Auth/Register.tsx:108-133 | refused with the terms message until the terms are accepted; otherwise the user is signed in and on the dashboard |
| Registration.RegistrationForm.EditBasicInfo | frontend/teachforward-frontend/src/pages/Auth/Register.tsx:76-81 | typing changes one first-step field, and only on the first step where those fields are shown |
| Registration.RegistrationForm.SetAgreeToTerms | frontend/teachforward-frontend/src/pages/Auth/Register.tsx:326-331 | sets the terms flag only |
| Registration.RegistrationForm.PressForward | frontend/teachforward-frontend/src/pages/Auth/Register.tsx:458-476 | Create Account on the last step, Next before it; the step stays in 0..2, and signing in needs valid basic information and accepted terms |
| Registration.RegistrationForm.PressBack | frontend/teachforward-frontend/src/pages/Auth/Register.tsx:450-456 | disabled on step 0, otherwise one step back |

## Left out

- Unicode: white space is the ASCII set and digits are '0'..'9', whereas Python's `strip`/`isdigit` and JavaScript's `trim` also accept other Unicode characters. The ASCII separators \x1c-\x1f, which Python's `strip` removes and JavaScript's `trim` keeps, are not white space in the model. JavaScript string lengths count UTF-16 code units, which the model does not distinguish from characters.
- Floating point: the grade arithmetic is over exact reals. The page's `toFixed`/`Math.round`, the API's `round(x, 2)` and IEEE rounding are not modelled, so the breakdown rows keep their averages and contributions unrounded.
- The division by `max_score` is unguarded in the source, and the grade dialog accepts 0. The model requires every maximum score to be positive rather than inventing an answer for a zero maximum.
- Course credits are an input field, because the backend does not persist them: the course schemas (backend/app/schemas.py:146-161) have no `credits`, so on the page `course.credits` is undefined, the credit total at frontend/teachforward-frontend/src/pages/Grades/Grades.tsx:340 is NaN, `NaN > 0` is false, and the page shows a GPA of 0. The model describes the page once credits are supplied.
- The database: queries, commits, `.first()` and ownership checks (the 404 for another student's course) are replaced by sequences and maps that are passed in or held in fields. The API's `update_average_grade` receives the student's courses and all components and entries.
- The clock (`datetime.utcnow()`, `Date.now()`, `new Date().toISOString()`) and the random digits of a meeting id are parameters. The personal note's creation time is kept as the clock's number, not as an ISO string.
- Requests: each HTTP handler is modelled as one atomic step, and steps happen one after another. `start_study_session` checks for an open session and then inserts one, and the table has no unique constraint, so two concurrent requests could both pass the check. StudySessions.AtMostOneOpen holds only for requests handled one at a time.
- `Progress.updated_at`, which `update_progress` sets from the clock, is not modelled.
- The study-time timer on the grade page depends on timers and a clock and is not modelled.
- OpenAI and PyPDF2: the model calls, the JSON and regular-expression extraction of their output, and the page-text extraction of PyPDF2 are foreign services. They are replaced by the fallbacks, by a `clientAvailable` flag for the chat, and by the list of page texts.
- The chat endpoint's reply comes from the language model and enters the chat panel as a parameter. The page's `fetch` calls, `localStorage` and React rendering are I/O.
- `generate_flashcards` and `generate_quiz_endpoint` have no fallback (they answer 503 or 500 around the model call) and are not modelled.
- The duplicate `POST /ai/summarize` route is modelled as two functions, Summarize and SummarizeText. FastAPI's dispatch between them is not modelled.
- AiFallback.ChatMessages: a history item's `role` or `content` given as JSON null is read by `msg.get` as None rather than the default, and the model treats it as a missing key. A history item that is not an object is not modelled.
- AiFallback.ParseNotes: the payload's title and content are given as strings. A missing key (which `payload.get` defaults to "") is the same as an empty string, and a non-string value is not modelled.
- WebSockets: `accept`, `send_text`, `receive_text` and the swallowing of send errors are not modelled, and neither is the interleaving of the `await`ed calls. Route returns the sockets a message is sent to, not the JSON response text or its time stamp. A JSON value that is not an object, and the error raised by `int(user_id)` for a non-numeric user id, are not modelled. A receiver id is an integer or a string.
- The stored chat message rows (`models.Message`) are not modelled.
- bcrypt is modelled as an ideal hash: two inputs verify against each other's hash exactly when they are equal. Salting and the cost factor are not modelled. passlib's bcrypt also cuts its input at 72 bytes, and the model's 72-character cut is over characters, so a non-ASCII password of at most 72 characters can still be cut further by bcrypt. Crud.VerifyIffSamePrefix is exact only for the ideal hash.
- StudyTools.EditQuestion: an option index outside the four options leaves the question unchanged, whereas JavaScript would extend the array with holes or, for a NaN from `parseInt`, add a property. A field name that is neither `question`, `correctAnswer` nor `option…` is not modelled.
- StudyTools.EditedQuestions, StudyTools.UpdatedSection, StudyTools.AddedSubsection, StudyTools.UpdatedSubsection and StudyTools.DeletedSubsection: an index outside the list leaves everything unchanged, whereas the page would throw a TypeError. The page only calls these handlers with indices of elements it shows.
- Aliasing: the page's shallow copies share nested objects with the previous React state. The model updates values, so an earlier state snapshot is never changed behind the page's back.
- Registration: the button gating (Back disabled on step 0, Next offered only before the last step, the first step's fields shown only on step 0) is taken from the rendered page and built into PressForward, PressBack and EditBasicInfo. The second and third steps' fields, `handleInputChange` for them, and the `loading` interval of the mock submission are not modelled.
- The Zoom API client, authentication (JWT, `deps.py`), file storage, migrations, and the remaining routers and pages are outside the core.

## Findings

| source | as written | input that shows it | evidently intended | confidence | as-written member | corrected member |
|---|---|---|---|---|---|---|
| backend/app/routers/ai.py:453-458 | the 400 "No text found in PDF" is raised inside `try`, and `except Exception` turns it into a 500 | a ".pdf" upload whose single page has no extractable text | answer 400 "No text found in PDF" | not executed | AiFallback.ExtractPdfAsWritten, AiFallback.ScannedPdfAnswers | AiFallback.ExtractPdf |
| backend/app/routers/grades.py:371-386 | `db.func.sum(...)` is looked up on the database session, which has no `func` attribute, so `update_study_hours` raises after `end_study_session` has committed the close | one study session of 60 minutes, then `POST /grades/study-session/end` | store ⌊total minutes / 60⌋ as the student's study hours and answer with the duration | not executed | StudySessions.EndStudySessionAsWritten, StudySessions.StudyHoursNeverStored | StudySessions.EndStudySession, StudySessions.UpdateStudyHours |
