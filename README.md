# Student feedback portal: a verified model of its server rules and client auth state

The portal lets students sign up, sign in, and give each course one piece of
feedback (a 1 to 5 rating and a message). Administrators see reports over
that feedback, export it as CSV, and manage courses and student accounts.

This project models the portal's rules in Dafny. The document store is
replaced by three in-memory tables held by the class `Store.Db`: `users`,
`courses` and `feedback`, each a sequence in insertion order. Every route is a
method on that store or a function over its tables. Each route returns a
`Response`, which is either `Ok(status, body)` or `Fail(status, message)`,
with the route's own messages. The model covers:

- **The schemas** (`Models`). Users, courses and feedback records are
  datatypes, and the schema rules are predicates on them: length bounds,
  trimming, upper-case codes, lower-case emails, the email pattern, the
  10-digit phone, rating 1..5, credits 1..6, and the role enum. The unique
  indexes become invariants of the store. The user document's pre-save hook
  hashes the password only when it was modified, and `toJSON` drops the
  password.
- **The account validators** (`Validators`). This covers the password
  regex, including its look-aheads, which stop at a line break, and the
  missing end anchor. It also covers the trimmed length checks.
- **The feedback routes** (`FeedbackRoutes`): submit, my-feedback, update,
  delete, and the course list with `hasSubmittedFeedback`. Only students may
  use them. A course must be active to get feedback, and each (student,
  course) pair may have at most one record.
- **The admin reports**:
  - the dashboard, with counts, the mean, the rating distribution, the
    recent feedback and the top courses (`Dashboard`);
  - the analytics, with monthly trends, course performance, student
    engagement, rating trends and instructor performance (`Analytics`);
  - the filtered and paginated feedback listing, and the CSV export
    (`AdminRoutes`, `Csv`, `Pagination`);
  - the student list (`AdminStudents`) and the course list (`AdminCourses`).
- **The admin mutations**:
  - block or unblock a student;
  - delete a student together with all of that student's feedback;
  - create and update courses, with the course-code check;
  - delete a course, which is refused while any feedback refers to it.
- **Access control**:
  - `protect`, which reads the bearer token, and `adminOnly` (`Middleware`);
  - the order of checks in login and admin login, and registration
    (`AuthRoutes`);
  - the profile update and the password change (`UsersRoutes`).
- **The client**:
  - the auth reducer, the three sign-in flows with their fallback messages,
    and the start-up load (`AuthContext`);
  - the route guard (`ProtectedRoute`).

Some things the code uses are not modelled and become inputs instead. Token
verification, bcrypt, the picture upload, and the library validators
`isEmail`, `normalizeEmail`, `isISO8601` and `isMongoId` are parameters
(functions or verdicts). The clock is a `now` parameter. Averages are exact
`real` quotients.

The model follows the code in these places, where a reader might expect
otherwise:

- the dashboard average is 0 when there is no feedback;
- `ratingDistribution` lists only the ratings that occur;
- student engagement is sorted by count alone, with no tie-break on recency;
- case mapping covers only ASCII letters;
- a CastError from a malformed path id ends in the catch block's 500.

## Model

| member | source | states |
|---|---|---|
| Models.ToJson | server/models/User.js:77-81 | the object sent for a user has no `password` entry and keeps every other entry of the document, its creation time included |
| Models.NewUser | server/models/User.js:4-51 | a created user has the schema defaults: role student, not blocked, empty picture; name trimmed, email lower-cased |
| Models.NewCourse | server/models/Course.js:4-39 | a created course is active, with a trimmed name and instructor and a trimmed, upper-cased code |
| Models.UserDocument.Load | server/models/User.js:59-61 | a document fetched from the store has no modified password path |
| Models.UserDocument.Build | server/models/User.js:59-61 | a new document counts its password as modified |
| Models.UserDocument.SetPassword | server/models/User.js:59-61 | assigning the password changes only the password and marks it modified |
| Models.UserDocument.SetBlocked | server/routes/admin.js:348 | assigning `isBlocked` changes only that flag and leaves the password path as it was |
| Models.UserDocument.Save | server/models/User.js:19-24 | save validates an 8-character minimum only on a modified password, then hashes the password exactly when it was modified; a failed save changes nothing |
| Models.TicksOrder | server/routes/admin.js:53 | comparing instants by `Ticks` is calendar order on their fields, and equal ticks mean equal instants |
| Models.TwelveMonthsBefore | server/routes/admin.js:630-631 | the cut-off is a valid instant in the previous year, strictly earlier, at the same time of day; it is the same month and day whenever that day exists a year earlier, and otherwise the date was 29 February and the cut-off is 1 March |
| Models.IsoDate | server/routes/admin.js:219 | the date part of the ISO text has 10 characters and no `T`, `.` or `,` |
| Models.IsoTime | server/routes/admin.js:220 | the time part of the ISO text has 8 characters and no `T`, `.` or `,` |
| Models.ObjectIdText | server/routes/admin.js:209 | an id's text has 24 characters |
| Models.EmailShape | server/models/User.js:17 | an address the schema's email pattern accepts contains an `@` |
| Text.Trim | server/routes/auth.js:15 | `trim` removes exactly the leading and trailing whitespace; the result is empty iff the input is all whitespace |
| Text.TrimIdempotent | server/models/User.js:8 | trimming a trimmed value again changes nothing, so the sanitizer and the schema setter agree |
| Text.TrimmedIff | server/models/Course.js:8 | a string is trimmed exactly when trimming leaves it unchanged |
| Text.ToUpperAscii | server/routes/admin.js:451 | `toUpperCase` keeps the length and maps each character |
| Text.ToLowerAscii | server/models/User.js:15 | the `lowercase` setter keeps the length and maps each character |
| Text.UpperCaseIsFinal | server/models/Course.js:15 | an upper-cased string has no lower-case letter, and upper-casing is the identity exactly on such strings |
| Text.LowerCaseIsFinal | server/models/User.js:15 | a lower-cased string has no upper-case letter, and lower-casing is the identity exactly on such strings |
| Text.Split | server/middleware/auth.js:10 | `split` on one character gives at least one piece, and no piece contains the separator |
| Text.JoinSplit | server/routes/admin.js:249 | joining the pieces of a split with the same separator gives back the string |
| Text.SplitJoin | server/routes/admin.js:249-251 | splitting a join of separator-free pieces gives back the pieces |
| Text.FirstPiece | server/routes/admin.js:219 | the first piece of a split is the text before the first separator |
| Text.DecimalRoundTrip | server/routes/admin.js:244-245 | the decimal text of a number reads back as that number |
| Text.FirstLine | server/routes/auth.js:20 | what a regex `.*` can cover from the start: the longest prefix without a line terminator |
| Seqs.Filter | server/routes/admin.js:137 | `find(filter)` returns only records of the table that match, and every record that matches |
| Seqs.IndexWhere | server/routes/auth.js:100 | `findOne` returns the first matching record, and nothing exactly when no record matches |
| Seqs.FilterComplement | server/routes/admin.js:380 | a condition and its negation split the table between them |
| Sorting.Sort | server/routes/admin.js:140 | `sort` returns a permutation of its input |
| Sorting.SortSorted | server/routes/admin.js:140 | under a total preorder, the sort's output is ordered and is a permutation of its input |
| Sorting.TopOfSort | server/routes/admin.js:53-54 | `sort` then `limit(n)` gives records from the input, in order, and no record left out precedes one kept |
| Sorting.LexLeTotal | server/routes/admin.js:403 | the name order relates every pair of strings |
| Sorting.LexLeTransitive | server/routes/admin.js:403 | the name order is transitive |
| Sorting.LexLeAntisymmetric | server/routes/admin.js:403 | two names each ordered before the other are equal |
| Grouping.GroupKeys | server/routes/admin.js:39-45 | a `$group` gives each key that some record has, exactly once |
| Grouping.GroupsPartition | server/routes/admin.js:655-663 | the groups of a `$group` stage add up to all the records |
| Grouping.GroupsNonEmpty | server/routes/admin.js:723-731 | every group holds at least one record, and only records with its key |
| Grouping.GroupRows | server/routes/admin.js:57-73 | `$group`, `$lookup`, `$unwind` yields rows from the table whose groups are non-empty |
| Grouping.GroupRowsComplete | server/routes/admin.js:57-73 | every record whose key has a row in the table has its row listed, once |
| Grouping.LookupDistinct | server/routes/admin.js:65-73 | looking up distinct keys gives rows with distinct ids |
| Pagination.PageCount | server/routes/admin.js:149 | `ceil(total/limit)` pages hold every record, the last page is not empty, and there are no pages iff there are no records |
| Pagination.PageCountIsLeast | server/routes/admin.js:149 | no smaller page count holds every record |
| Pagination.NextPageMeaning | server/routes/admin.js:151 | `page < pages` holds exactly when records remain after page `page` |
| Pagination.Paginate | server/routes/admin.js:147-153 | `current`, `pages`, `total`, and `hasNext` iff records remain after the page, `hasPrev` iff page > 1 |
| Pagination.Window | server/routes/admin.js:141-142 | `skip((page-1)*limit).limit(limit)` gives at most `limit` records, the consecutive ones from `(page-1)*limit` |
| Pagination.RecordOnItsPage | server/routes/admin.js:123-125 | record `i` is on page `i/limit + 1`, which is one of the `pages` pages |
| Pagination.PageRequest | server/routes/admin.js:106-107 | page and limit are accepted iff page is absent or at least 1 and limit is absent or in range; the defaults are 1 and the route's limit |
| Pagination.WindowKeepsOrder | server/routes/admin.js:140-142 | a page of a sorted result is sorted |
| Validators.LookaheadMeaning | server/routes/auth.js:20 | a look-ahead `(?=.*X)` succeeds iff the first line contains an `X` |
| Validators.PasswordPolicy | server/routes/auth.js:17-23 | a password is accepted iff it has at least 8 characters, its first line has a lower-case, an upper-case, a digit and a special character, and its first character is in the allowed set |
| Validators.PasswordNotEndAnchored | server/routes/auth.js:20 | anything may follow an accepted password |
| Validators.PasswordRefusedAcrossLines | server/routes/auth.js:20 | a digit or special character after a line break does not count |
| Validators.PasswordAcceptedExamples | server/routes/auth.js:17-23 | `Passw0rd!` and every extension of it are accepted |
| Validators.TrimmedLengthFitsSchema | server/routes/auth.js:15 | text that passes a trimmed length check trims to a non-empty trimmed value within the bound |
| Stats.Mean | server/routes/admin.js:28-36 | `$avg` times the count is the sum of ratings; with no record the reported value is 0 |
| Stats.MeanBounds | server/models/Feedback.js:15-20 | the mean of schema-valid ratings is between 1 and 5 |
| Stats.RatingSumBounds | server/models/Feedback.js:15-20 | valid ratings sum to between the count and five times the count |
| Stats.FiveWay | server/routes/admin.js:673-718 | each of the five counts (5, 4, 3, 2, 1) is the multiplicity of that value among the course's ratings |
| Stats.GroupSizeIsMultiplicity | server/routes/admin.js:673-718 | the records grouped under rating `k` are exactly as many as the occurrences of `k` among all ratings |
| Stats.FiveWaySums | server/routes/admin.js:673-718 | with ratings in 1..5 the five counts add up to the number of ratings |
| Stats.Latest | server/routes/admin.js:729 | `$max` of `createdAt` is the time of one of the records, and no record is later |
| Store.Db.InsertFeedback | server/routes/feedback.js:67-72 | `Feedback.create` of a valid record with a fresh id, an existing student and course, and a new (student, course) pair appends it and keeps the store consistent |
| Store.Db.ReplaceFeedbackAt | server/routes/feedback.js:210-213 | the record at one position is replaced by a valid one with the same id, student and course; the store stays consistent and nothing else changes |
| Store.Db.KeepFeedback | server/routes/admin.js:380 | `deleteMany` leaves exactly the records that are kept, in order, and the store stays consistent |
| Store.Db.InsertCourse | server/routes/admin.js:484-490 | `Course.create` appends the course with a fresh id and a code no course has |
| Store.Db.ReplaceCourseAt | server/routes/admin.js:567-570 | the course at one position is replaced, keeping its id and a unique code |
| Store.Db.DeleteCourse | server/routes/admin.js:609 | deleting a course that no feedback refers to removes exactly the course with that id and keeps the store consistent |
| Store.Db.InsertUser | server/routes/auth.js:51-58 | `User.create` appends the user with a fresh id and an email no user has |
| Store.Db.ReplaceUserAt | server/routes/admin.js:349 | `save` of a valid user with the same id, email and role replaces the user at one position and keeps the store consistent |
| Store.Db.DeleteUser | server/routes/admin.js:383 | deleting a user whom no feedback refers to removes exactly the user with that id and keeps the store consistent |
| Store.DeleteCourseKeepsConsistent | server/routes/admin.js:600-609 | deleting a course that no feedback refers to keeps every reference resolvable |
| Store.DeleteUserKeepsConsistent | server/routes/admin.js:379-383 | deleting a user after their feedback keeps every reference resolvable |
| FeedbackRoutes.Submit | server/routes/feedback.js:12-93 | 400 on a bad body, then 403 for a non-student, 404 for a missing or inactive course, 400 for a second record on the pair; otherwise 201 with the new record, appended to the table |
| FeedbackRoutes.Record | server/routes/feedback.js:67-72 | a submission that passed every check appends the record with the trimmed message and the next id |
| FeedbackRoutes.OnePerPair | server/models/Feedback.js:34 | a store with the unique index has at most one record per (student, course) |
| FeedbackRoutes.MyFeedbackOrderMeaning | server/routes/feedback.js:132-134 | the student's records, newest first, are a permutation of the student's records |
| FeedbackRoutes.MyFeedback | server/routes/feedback.js:98-157 | 400 on bad paging, 403 for a non-student; otherwise a newest-first page of the caller's own records with the shared pagination object |
| FeedbackRoutes.EveryOwnFeedbackIsListed | server/routes/feedback.js:124-136 | every record of the student is on some page within the page count |
| FeedbackRoutes.OwnFeedbackOnItsPage | server/routes/feedback.js:124-136 | the `i`-th newest record of the student is on page `i/limit + 1` |
| FeedbackRoutes.Patched | server/routes/feedback.js:204-208 | the update keeps the record's id, author, course and creation time |
| FeedbackRoutes.PatchedStaysValid | server/routes/feedback.js:166-171 | an update that passes the validators keeps the record schema-valid |
| FeedbackRoutes.PatchWhereReplacesOne | server/routes/feedback.js:210 | with unique ids, `findByIdAndUpdate` replaces exactly the one record with that id |
| FeedbackRoutes.Update | server/routes/feedback.js:162-228 | 400, then 403 for a non-student, 500 for a malformed id, 404 unless the caller owns the record; otherwise only that record changes, and only the truthy fields sent, and the reply is the updated record as stored |
| FeedbackRoutes.Delete | server/routes/feedback.js:233-268 | 403 for a non-student, 500 for a malformed id, 404 unless the caller owns the record; otherwise exactly that record is removed |
| FeedbackRoutes.DeleteRemovesExactlyOne | server/routes/feedback.js:255 | deleting by an existing unique id removes one record and keeps all others |
| FeedbackRoutes.CoursesForStudent | server/routes/feedback.js:273-310 | 403 for a non-student; otherwise exactly the active courses, by name, each marked iff the caller has feedback on it |
| FeedbackRoutes.ActiveCoursesByName | server/routes/feedback.js:284-286 | the active courses sorted by name are a permutation of the active courses, in name order |
| FeedbackRoutes.SubmittedMeaning | server/routes/feedback.js:289-296 | a course is in the submitted list iff the student has a record about it |
| AdminRoutes.BaseFilterMeaning | server/routes/admin.js:128-131 | the listing filter has exactly the keys of the parameters given, never a date, and a record matches iff it agrees with each |
| AdminRoutes.ExportFilterMeaning | server/routes/admin.js:189-199 | the export filter adds `createdAt` iff a date is given, with `$gte` only for a start and `$lte` only for an end; a record matches iff it agrees with each and lies in the inclusive range |
| AdminRoutes.MatchesMeaning | server/routes/admin.js:137-140 | the matching records, newest first, are exactly the records the filter selects |
| AdminRoutes.FeedbackList | server/routes/admin.js:103-163 | 400 iff a query parameter is invalid; otherwise a newest-first page of the matching records, and the pagination object over their count |
| AdminRoutes.EveryMatchIsListed | server/routes/admin.js:123-142 | every matching record is on some page within the page count |
| AdminRoutes.MatchOnItsPage | server/routes/admin.js:123-142 | the `i`-th newest match is on page `i/limit + 1` |
| AdminRoutes.RowsMeaning | server/routes/admin.js:202-204 | each exported record is paired with its own student and course |
| AdminRoutes.RowsExist | server/routes/admin.js:208-216 | in a consistent store every record's student and course exist, so no field read fails |
| AdminRoutes.Lines | server/routes/admin.js:234-250 | there is one line per record, each the record's joined fields |
| AdminRoutes.Export | server/routes/admin.js:168-262 | 400 iff a parameter is invalid; otherwise 200 with a document |
| AdminRoutes.ExportOrderValid | server/routes/admin.js:202-205 | every exported record has a student, a course and a printable timestamp |
| AdminRoutes.ExportMeaning | server/routes/admin.js:202-253 | the export is the header followed by one line per matching record, newest first, unpaginated |
| Csv.CleanMessage | server/routes/admin.js:218 | the cleaned message has the original length, each line break becomes a space and each comma a semicolon, and none remain |
| Csv.CleanMessageIdempotent | server/routes/admin.js:218 | a message without line breaks or commas is left as it is, so cleaning twice is cleaning once |
| Csv.IsoPieces | server/routes/admin.js:219-220 | splitting the ISO text at `T`, then the rest at `.`, yields the date and the time |
| Csv.SubmittedDate | server/routes/admin.js:219 | the submitted date is the `YYYY-MM-DD` part |
| Csv.SubmittedTime | server/routes/admin.js:220 | the submitted time is the `HH:mm:ss` part |
| Csv.FixedFieldsHaveNoComma | server/routes/admin.js:237-248 | the id, email, phone, credits, rating, cleaned message, date and time fields contain no comma; the student name, course name, code and instructor may contain one |
| Csv.LineSplits | server/routes/admin.js:236-249 | when the names, code and instructor have no comma, a line splits back into its twelve fields |
| Dashboard.BlockedAreStudents | server/routes/admin.js:21-24 | blocked students never outnumber students |
| Dashboard.SortedRatings | server/routes/admin.js:39-46 | the ratings that occur, each once, in ascending order |
| Dashboard.RatingsAscending | server/routes/admin.js:46 | the distribution's ratings strictly increase |
| Dashboard.RatingCountsPositive | server/routes/admin.js:41-44 | each listed rating's count is the number of records with it, and is positive |
| Dashboard.RatingsCovered | server/routes/admin.js:39-47 | every rating that occurs is listed |
| Dashboard.RatingCountsTotal | server/routes/admin.js:39-47 | the distribution's counts add up to the number of records |
| Dashboard.RecentAreNewest | server/routes/admin.js:50-54 | the five newest records (all when fewer), newest first; none left out is newer than one listed |
| Dashboard.RatedCoursesComplete | server/routes/admin.js:57-73 | every course with feedback that still exists is rated, once |
| Dashboard.CourseRatingsAreTop | server/routes/admin.js:57-76 | at most ten course ratings, best average first; none left out has a better average |
| Dashboard.CourseRatingMeaning | server/routes/admin.js:59-63 | each course rating is for an existing course, counts its positive number of records, and its average is the mean of their ratings (average × count = sum, per `Stats.Mean`), between 1 and 5 |
| Dashboard.DashboardOf | server/routes/admin.js:17-98 | blocked students do not exceed students, the distribution adds up to the total, the average is the mean of all ratings (`Stats.Mean`): 0 with no feedback and otherwise in 1..5, and there are up to five recent records |
| Analytics.MonthIndexInjective | server/routes/admin.js:641-644 | two months in the same calendar position are the same month |
| Analytics.MonthsOf | server/routes/admin.js:640-651 | the months with records, each once, in calendar order |
| Analytics.MonthsStrictlyIncrease | server/routes/admin.js:649-651 | the listed months strictly increase, and each has records, so there are no empty months |
| Analytics.MonthListed | server/routes/admin.js:640-644 | every record's month is listed |
| Analytics.TrendsTotal | server/routes/admin.js:645 | the monthly counts add up to the size of the listed months' groups |
| Analytics.MonthlyTotalsCover | server/routes/admin.js:630-652 | the monthly totals add up to the number of records of the last twelve months |
| Analytics.MonthlyTrendsMeaning | server/routes/admin.js:633-652 | each month's entry counts and averages that month's recent records, and the months increase |
| Analytics.MonthRatingsMeaning | server/routes/admin.js:753-760 | within a month each rating is listed once with a positive count, and the counts add up to the month's records |
| Analytics.RatingTrendsAgree | server/routes/admin.js:746-779 | the rating trends list the same months as the monthly trends, and each month's counts add up to its total |
| Analytics.WithDistribution | server/routes/admin.js:655-718 | each performance entry keeps its course entry and the course's ratings in record order, and each of its five counts is how often that rating occurs among them |
| Analytics.CoursePerformanceOrdered | server/routes/admin.js:655-720 | course performance lists every rated course, best average first |
| Analytics.DistributionSumsToTotal | server/routes/admin.js:673-718 | a course's five counts add up to its total |
| Analytics.CoursePerformanceSums | server/routes/admin.js:655-720 | every listed course's distribution sums to its `totalFeedback` |
| Analytics.EngagementEntries | server/routes/admin.js:723-740 | each engagement entry is for an existing student with feedback, with that student's count and mean |
| Analytics.StudentEngagementIsTop | server/routes/admin.js:723-743 | at most ten students, most active first; none left out has more feedback than one listed |
| Analytics.LastFeedbackMeaning | server/routes/admin.js:729 | `lastFeedback` is the time of one of the student's records, and none of them is later |
| Analytics.NothingUnwound | server/routes/admin.js:782-791 | in a consistent store no record is lost to the course `$unwind` |
| Analytics.InstructorEntryMeaning | server/routes/admin.js:781-798 | each instructor entry's total is the number of joined records whose course that instructor teaches, at least one; a record is counted iff its course is theirs; the average times the total is the sum of those ratings; its names are exactly the names of those courses |
| Analytics.InstructorAverage | server/routes/admin.js:792-795 | an instructor's average times the count is the sum of the ratings of the records about their courses |
| Analytics.InstructorsRanked | server/routes/admin.js:800 | instructors are listed best average first, one entry per group |
| Analytics.InstructorsOnce | server/routes/admin.js:792-800 | each instructor is listed once |
| Analytics.AnalyticsOf | server/routes/admin.js:627-820 | the monthly totals cover the last twelve months, the rating trends match the months, and at most ten students are listed |
| AdminStudents.StudentList | server/routes/admin.js:267-332 | 400 iff paging is invalid or the search is empty; otherwise a page of the matching students, newest first, with their feedback counts, no password, and pagination over the match count |
| AdminStudents.StudentsMeaning | server/routes/admin.js:291-300 | the listed students are those the filter selects, newest account first, and each is a student the search matches |
| AdminStudents.FeedbackCountMeaning | server/routes/admin.js:305 | a student's count is the number of records they wrote, and 0 iff they wrote none |
| AdminStudents.ToggledAt | server/routes/admin.js:348 | with unique ids, toggling by id flips the one user at that position |
| AdminStudents.ToggledTwice | server/routes/admin.js:348 | blocking twice restores the users, and a toggle changes nothing but `isBlocked` |
| AdminStudents.BlockStudent | server/routes/admin.js:337-363 | 500 for a malformed id, 404 without such a student; otherwise only that student's `isBlocked` flips, and the message says which way |
| AdminStudents.DeleteStudent | server/routes/admin.js:368-396 | 500, 404 without such a student; otherwise the student's feedback and then the student are removed, nothing else |
| AdminStudents.StudentDeletionMeaning | server/routes/admin.js:379-383 | the deletion removes one account and exactly the student's records, and keeps everyone else's |
| AdminCourses.CourseList | server/routes/admin.js:401-438 | there is one entry per course |
| AdminCourses.CourseListMeaning | server/routes/admin.js:403-423 | every course is listed once, by name; its total counts its records, its average is their mean and the average times the total is the sum of their ratings; the average is 0 iff there are none, otherwise in 1..5 |
| AdminCourses.WithStatsMeaning | server/routes/admin.js:403-423 | one course's entry counts its records, averages their mean, and the average is 0 iff there are none, otherwise in 1..5 |
| AdminCourses.EntryAverage | server/routes/admin.js:403-423 | an entry whose average is the mean and whose total is the count of a course's records has average × total = the sum of their ratings |
| AdminCourses.SanitizedCodeIsFinal | server/routes/admin.js:447-451 | the sanitized code is trimmed and upper-case, so the schema setters leave it alone |
| AdminCourses.CreatedIsValid | server/routes/admin.js:446-460 | fields that pass the validators make a course the schema accepts |
| AdminCourses.CreateCourse | server/routes/admin.js:443-505 | 400 on invalid fields, 400 when the sanitized code exists; otherwise 201 with the new course, appended |
| AdminCourses.RevisedKeeps | server/routes/admin.js:513-535 | an update keeps the course's id and creation time; an empty update changes nothing |
| AdminCourses.RevisedIsValid | server/routes/admin.js:513-535 | an update that passes the validators keeps the course valid |
| AdminCourses.CodeConflictMeaning | server/routes/admin.js:557-564 | with unique codes, the conflict test holds iff another course has the code sent |
| AdminCourses.CodeStaysUnique | server/routes/admin.js:557-575 | without a conflict, the course's code after the update belongs to no other course |
| AdminCourses.UpdateCourse | server/routes/admin.js:510-585 | 400, 500 for a malformed id, 404, 400 on a code conflict; otherwise only that course changes, to the fields sent |
| AdminCourses.DeleteCourse | server/routes/admin.js:590-622 | 500, 404, 400 while any feedback refers to the course; otherwise exactly that course is removed |
| AdminCourses.CourseDeletionMeaning | server/routes/admin.js:609 | deleting removes one course and keeps every other course |
| AuthRoutes.RegisteredValid | server/routes/auth.js:51-58 | a validated registration makes a schema-valid user iff the address fits the schema's pattern and a date of birth was given; the role is student |
| AuthRoutes.Register | server/routes/auth.js:12-76 | 400 on invalid fields, 400 for a taken email, 500 when the schema rejects the document; otherwise 201, the user is appended with the hashed password, and the email is taken |
| AuthRoutes.PasswordNotShown | server/models/User.js:77-81 | the object sent for a user does not depend on the stored password |
| AuthRoutes.FindByEmail | server/routes/auth.js:100 | the lookup finds a user with the lower-cased email, and nothing iff no user has it |
| AuthRoutes.Login | server/routes/auth.js:82-140 | 400 on invalid input; 401 `Invalid credentials` for an unknown email; success only for an unblocked user with that email whose password matches; every failure is 400 or 401 |
| AuthRoutes.LoginMeaning | server/routes/auth.js:100-121 | with unique emails, login succeeds iff the account is not blocked and the password matches; a blocked account gets the blocked message |
| AuthRoutes.LoginHidesWhichCheckFailed | server/routes/auth.js:100-121 | an unknown email and a wrong password get the same 401 `Invalid credentials` |
| AuthRoutes.BlockedBeforePassword | server/routes/auth.js:108-115 | a blocked account's reply does not depend on the password check |
| AuthRoutes.AdminLogin | server/routes/auth.js:147-199 | success only for an admin account with that email and a matching password; every other valid request gets `Invalid admin credentials` |
| AuthRoutes.AdminLoginMeaning | server/routes/auth.js:165-180 | a student account never signs in here; an admin account does iff its password matches, blocked or not |
| UsersRoutes.PatchedKeepsAccount | server/routes/users.js:63-70 | the profile update keeps id, email, password, role, blocked flag and creation time; an empty update changes nothing; applying it twice is applying it once |
| UsersRoutes.PatchedIsValid | server/routes/users.js:36-70 | fields that pass the validators keep a valid user valid |
| UsersRoutes.UpdateProfile | server/routes/users.js:31-104 | 400 on invalid fields, 400 on a failed upload; otherwise only the caller's record changes, to the truthy sanitized fields and the uploaded picture |
| UsersRoutes.ChangePassword | server/routes/users.js:109-163 | 400 on invalid input, 400 when the current password does not match; otherwise the caller's stored password becomes the hash of the new one, and nothing else changes |
| UsersRoutes.ChangedPasswordOpens | server/routes/users.js:148-149 | after the change the new password matches what is stored, and the object sent for the user is as before |
| Middleware.BearerToken | server/middleware/auth.js:9-11 | a token is found only in a header starting with `Bearer`, and it is non-empty and has no space |
| Middleware.BearerRoundTrip | server/middleware/auth.js:9-11 | the header `Bearer <token>` gives back the token |
| Middleware.NoSecondWordNoToken | server/middleware/auth.js:13-18 | a header without a space carries no token |
| Middleware.Authenticate | server/middleware/auth.js:5-45 | every refusal is 401; success is an existing, unblocked user whose id the token verifies to |
| Middleware.AuthenticateMeaning | server/middleware/auth.js:20-36 | with unique ids, a valid token admits its user iff the user is not blocked; a blocked user gets the blocked message |
| Middleware.Request.constructor | server/middleware/auth.js:9 | a new request carries its header and no user |
| Middleware.Protect | server/middleware/auth.js:5-52 | on success `req.user` is the authenticated user and the chain goes on; otherwise the 401 reply is sent and `req.user` is untouched |
| Middleware.AdminOnly | server/middleware/auth.js:55-63 | the chain goes on iff there is a user with role admin; otherwise 403 |
| Middleware.AdminChainMeaning | server/middleware/auth.js:5-63 | an admin route is reached iff the token verifies to an existing, unblocked admin; a valid student gets 403, everyone else 401 |
| AuthContext.ReduceFrames | client/src/context/AuthContext.jsx:8-60 | each action writes only its own fields: the starts set loading and clear the error, logout keeps loading, load keeps token and error, update changes only the user, an unknown action nothing |
| AuthContext.OutcomesForget | client/src/context/AuthContext.jsx:17-36 | after a success or a failure the state does not depend on the state before |
| AuthContext.ReducePreserves | client/src/context/AuthContext.jsx:8-60 | every action keeps "signed in implies a user" |
| AuthContext.RunPreserves | client/src/context/AuthContext.jsx:8-60 | any sequence of actions keeps "signed in implies a user" |
| AuthContext.Initial | client/src/context/AuthContext.jsx:62-68 | the initial state satisfies "signed in implies a user" |
| AuthContext.FailureMessage | client/src/context/AuthContext.jsx:119 | the server's message when it is non-empty, otherwise the flow's fallback; never empty |
| AuthContext.AttemptMeaning | client/src/context/AuthContext.jsx:109-164 | a flow succeeds iff it leaves the state signed in, with the reply's user and token; on failure it is signed out with the returned message as error; loading ends either way |
| AuthContext.Mounted | client/src/context/AuthContext.jsx:86-107 | the state after the start-up load satisfies "signed in implies a user" |
| AuthContext.MountedMeaning | client/src/context/AuthContext.jsx:86-107 | after start-up the state is signed in iff a stored non-empty token loaded a user, and then it keeps that token; without such a token nothing is dispatched and the state is the initial one; when not signed in there is no user and no token, except that a stored empty token stays; nothing is loading |
| ProtectedRoute.Guard | client/src/components/ProtectedRoute.jsx:6-28 | spinner while loading or without a user; login redirect iff a user is present but not signed in; children iff loaded, signed in, and admin when required |
| ProtectedRoute.RunKeepsUserIffSignedIn | client/src/context/AuthContext.jsx:8-60 | without `UPDATE_USER`, a user is present exactly when signed in |
| ProtectedRoute.SignedOutSpinsForever | client/src/components/ProtectedRoute.jsx:11-21 | after start-up and any actions without `UPDATE_USER`, a signed-out visitor sees the spinner, never the login redirect |
| ProtectedRoute.FirstVisitSpins | client/src/components/ProtectedRoute.jsx:11-17 | a first visit with nothing stored shows the spinner |
| ProtectedRoute.GuardCorrected | client/src/components/ProtectedRoute.jsx:11-27 | spinner iff loading; login redirect iff loaded and without a user or not signed in; children exactly as before |
| ProtectedRoute.CorrectionOnlyRedirects | client/src/components/ProtectedRoute.jsx:11-27 | with a user both guards agree; they render children for the same states; without a user the correction redirects |
| ProtectedRoute.SignedOutRedirected | client/src/components/ProtectedRoute.jsx:19-21 | with the correction, every signed-out state after start-up is sent to the login page |
| ProtectedRoute.AdminPagesNeedAdmin | client/src/components/ProtectedRoute.jsx:23-25 | an admin-only page never renders for a non-admin, and a signed-in non-admin is sent to the dashboard |

## Left out

- Express routing, HTTP plumbing, headers, `res.send`, the server bootstrap and the build configuration are not modelled. Each route's reply is a `Response` value instead.
- The library validators `isEmail`, `normalizeEmail`, `isISO8601` and `isMongoId` are inputs: a verdict, or the already-normalized value. A malformed path id is the `CastFailure` case.
- jsonwebtoken (signing and verification), bcrypt (hash and compare) and the Cloudinary upload are function parameters. `generateToken` and the token in replies are not modelled.
- The lookup error in `protect` (`findById` throwing) is folded into the verifier returning no id. Both give the same 401.
- The outer 500 of `protect` is not modelled; nothing in the modelled path can throw there.
- Mongoose's query engine is not modelled. `find`, `countDocuments`, `$group`, `$lookup`, `$unwind` and `sort` are re-expressed over sequences, and `sort` is a stable insertion sort.
- `populate` is not modelled. Listings return the feedback records themselves; the export joins each record with its student and course explicitly.
- Concurrency is out of scope: the `Promise.all` fan-out and the check-then-create races in submit, register and course creation. The unique indexes are invariants of the store.
- Wall-clock time is the `now` parameter, and timestamps are calendar fields. `updatedAt` is kept on feedback only.
- The floating-point display of averages and percentages on the client is not modelled; averages are exact rationals.
- The React pages, the layout, the app shell, the client login page, and the provider's side effects (axios headers, local storage, the HTTP calls) are left out. The reducer, the flows' fallback messages, the start-up load and the guard are modelled.
- `GET /api/auth/me` and `GET /api/users/profile` are left out, apart from the `toJSON` they send.
- Models.ToJson: the object carries `createdAt` but not `updatedAt` or the version key `__v`, which `toObject` also returns; users do not record an update time here.
- Pagination.PageRequest: page numbers are unbounded integers. A page that `isInt` accepts but that exceeds 2^53, or whose `skip` leaves MongoDB's 64-bit range, makes the source lose precision or answer 500; the model answers with the exact, empty page. The same holds for AdminRoutes.FeedbackList, FeedbackRoutes.MyFeedback and AdminStudents.StudentList.
- Models.TwelveMonthsBefore: the server clock is taken to run in UTC. `setMonth` works in the server's local time zone and `$year`/`$month` group by UTC; the model has one calendar for both, so Analytics.LastYear and the month groups agree only under UTC.
- AdminRoutes.Export: a `startDate` or `endDate` is an instant as soon as `isISO8601` accepts it. Forms such as week or ordinal dates (`2024-W01`) that `new Date` cannot parse end in the source's 500; the model does not represent them.
- AuthRoutes.Register: a `dateOfBirth` is likewise taken to be a date whenever `isISO8601` accepts it; one that `new Date` cannot parse is not modelled.
- AdminStudents.StudentList: the search pattern is an input (`matches`), so the 500 that an invalid regular expression causes is not modelled.
- AdminCourses.UpdateCourse: only the six validated fields are applied; other body fields that `findByIdAndUpdate` would also write are not modelled.
- Analytics.RatingTrendsAgree: the order of ratings inside a month is left unspecified by the store; the model lists them in order of first appearance.
- Text.ToUpperAscii: `toUpperCase` and `toLowerCase` are modelled on ASCII letters only; other characters are kept as they are.
- Text.ToLowerAscii: `toLowerCase` (the email setter and `normalizeEmail`) is modelled on ASCII letters only; other characters are kept as they are.
- Csv.LineSplits: the CSV does not escape embedded double quotes or commas (RFC 4180, section 2, rule 7), so a field with a comma breaks the line apart; no parse round-trip is claimed.
- AuthRoutes.Register: the 500 is modelled as the schema rejecting the document (the email pattern or a missing date); other database errors are not modelled.
- Validators.TrimmedLengthIn: text length is the number of characters (`|s|`, code points). validator's `isLength` counts code points but leaves out the variation selectors U+FE0E and U+FE0F. The model therefore refuses some text `isLength` would accept, namely text that is over the limit only because of those selectors.
- Validators.TrimmedLengthFitsSchema: the schemas' `maxlength` counts UTF-16 code units, where a character outside the Basic Multilingual Plane takes two. The model measures code points, so it does not capture text that passes the route's check but exceeds `maxlength`, which the save would reject.
- FeedbackRoutes.PatchedStaysValid: "schema-valid" measures the message in code points, so a message of at most 1000 code points but more than 1000 UTF-16 units counts as valid here; the store would reject it.
- Models.ValidUser, Models.ValidCourse, Models.ValidFeedback: the schemas' `maxlength` bounds are stated on `|s|` (code points), not on UTF-16 code units.
- Validators.PasswordPolicy: the eight-character minimum counts code points; `isLength` leaves out U+FE0E and U+FE0F, so a password that reaches eight characters only with them passes here but gets a 400 from the route.
- AdminStudents.StudentList: only an empty search term gets the 400; a term made only of U+FE0E and U+FE0F, which `isLength` counts as empty, is searched for here.
- AdminCourses.CreatedIsValid: likewise for the name (100), code (10), description (500) and instructor (50) limits, measured in code points rather than UTF-16 units.
- AdminCourses.RevisedIsValid: likewise for the revised name, code, description and instructor.
- AuthRoutes.RegisteredValid: likewise for the name (50) and address (200) limits.
- UsersRoutes.PatchedIsValid: likewise for the patched name and address.
- AdminCourses.CreateCourse: the 500 the save raises when a validated field exceeds its UTF-16 `maxlength` is not modelled; such a request succeeds here.
- AdminCourses.UpdateCourse: the 500 for a revised field that exceeds its UTF-16 `maxlength` is not modelled.
- FeedbackRoutes.Submit: the 500 for a message that exceeds 1000 UTF-16 units is not modelled, and neither is the selector-aware count of `isLength`.
- FeedbackRoutes.Update: the 500 for a patched message that exceeds 1000 UTF-16 units is not modelled.
- AuthRoutes.Register: the 500 for a name or address that exceeds its UTF-16 `maxlength` is not modelled; the schema-rejection 500 covers only the email pattern and a missing date.
- UsersRoutes.UpdateProfile: the 500 for a name or address that exceeds its UTF-16 `maxlength` is not modelled.

## Findings

| source | as written | input that shows it | evidently intended | confidence | as-written member | corrected member |
|---|---|---|---|---|---|---|
| client/src/components/ProtectedRoute.jsx:11-21 | the guard shows the spinner whenever `user` is null, even after the start-up load; the reducer clears `user` whenever it clears `isAuthenticated`, so the `/login` redirect is never reached | a first visit with no stored token: `isAuthLoading` false, `user` null, `isAuthenticated` false | once loading is over, a visitor who is not signed in is redirected to `/login` | not executed | ProtectedRoute.SignedOutSpinsForever | ProtectedRoute.GuardCorrected |
