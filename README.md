# muzac — a Dafny model of the photo calendar's core

muzac is a family photo calendar. Each signed-in user stores at most one photo per day. The
photos are shown in a continuous weekly calendar and in a month calendar, and a date range of
them can be turned into a timelapse video. A small family-tree browser sits beside it.

This project models the core of the system in Dafny:

- **Lambda entry point.** The referer gate, the CORS headers and the route table (`Cors`, `Gateway`).
- **Image handlers.** Who the caller is, and the key each photo is stored under. The listing
  returns only the caller's photos, newest first. This is modelled on a bucket held as a map
  from keys to bytes (`ImageStore`), together with the older single-file API's variant of the
  same handlers (`LegacyApi`).
- **Preferences handlers.** They run over a table keyed by user id (`Preferences`).
- **Video handlers.** The output name of a render, the render id taken from the path, and the
  `s3://` URL parsing of a status reply (`VideoService`).
- **Frontend pages.** A page that holds state is modelled as a class whose fields are that
  state and whose methods are its handlers. The timelapse composition holds no state, so it is
  modelled as functions of the frame. The pages are:
  - the continuous calendar (`DailyCalendar`);
  - the month calendar (`MonthCalendar`);
  - the video editor (`VideoEditor`) and the timelapse composition (`Timelapse`);
  - the language context (`Language`);
  - the registration form (`RegisterForm`);
  - the login/register/verify switch (`AuthFlow`);
  - the family tree and its expandable nodes (`FamilyTree`, `FamilyTreeNode`).
- **Shared pieces:**
  - the Gregorian calendar behind JavaScript's `Date`, on whole days (`Calendar`);
  - string helpers (`Text`);
  - a stable insertion sort and a filter (`Lists`);
  - set toggling (`Sets`).

Everything outside the program is a parameter of the operation that uses it:

- the identity provider (a map from access tokens to users);
- whether a storage write succeeds;
- base64 decoding, URL signing and the renderer's answer;
- every HTTP response a page receives (`Fetch`: `Failed` when the request throws, otherwise the
  field read from the JSON body, which may be absent);
- the clock ("today", the current month, the current instant).

Dates that the pages compare as `Date` objects are day ordinals here. Dates exchanged with the
server are ISO `YYYY-MM-DD` strings, compared in text order.

## Model

| member | source | states |
|---|---|---|
| Cors.StartsWithAny | lambda/utils/cors.ts:7 | true exactly when the referer starts with one of the listed domains |
| Cors.CheckOrigin | lambda/utils/cors.ts:1-8 | a referer passes exactly when it starts with one of the three allowed domains, as a raw text prefix |
| Cors.EmptyRefererRejected | lambda/utils/cors.ts:1-8 | a request without a referer is refused |
| Cors.ExtendedHostReflected | lambda/utils/cors.ts:13-17 | a referer whose host only starts with an allowed https domain still passes, and its whole host is reflected back as the allowed origin |
| Cors.ReflectedOrigin | lambda/utils/cors.ts:13-19 | for an https muzac referer, the origin is the text before the third `/` |
| Cors.OriginOfUrl | lambda/utils/cors.ts:15-16 | for `https://host/path`, the part before the third slash is `https://host` |
| Cors.ReflectedOriginIsPrefix | lambda/utils/cors.ts:11-19 | for every allowed referer, the reflected origin is a prefix of the referer |
| Cors.LocalhostOrigin | lambda/utils/cors.ts:18-19 | a localhost referer always gets exactly `http://localhost:3000` |
| Cors.RejectedGetsDefault | lambda/utils/cors.ts:11 | a refused referer falls back to the default origin |
| Cors.GetCorsHeaders | lambda/utils/cors.ts:22-27 | the four headers: JSON content type, the reflected origin, the fixed methods and the fixed headers |
| Gateway.Referer | lambda/index.ts:17 | the lower-case header if it is non-empty, else the capitalised one, else the empty string |
| Gateway.AuthHeader | lambda/index.ts:34-35 | the lower-case header if it is non-empty, else the capitalised one if present, else absent |
| Gateway.BodyOrDefault | lambda/index.ts:39 | a missing or empty body becomes `{}`, any other body is passed unchanged |
| Gateway.Match | lambda/index.ts:38-60 | a matched endpoint's route is exactly the request's method and path |
| Gateway.RoutesDistinct | lambda/index.ts:38-60 | a request reaches an endpoint if and only if it names that endpoint's route, so the order of the tests does not matter |
| Gateway.CallFor | lambda/index.ts:38-60 | the call built for an endpoint goes to that endpoint's handler; verify, upload and images receive the request's authorization header, and every body-taking route receives the body or `{}` |
| Gateway.Handle | lambda/index.ts:12-78 | 403 exactly when the gate refuses a non-OPTIONS request; preflight exactly for OPTIONS; a dispatched call only on an allowed referer and a matching route, carrying the request's authorization header and its body or `{}`; 404 exactly when nothing matches; every non-403 answer carries the CORS headers of the referer |
| Gateway.PreflightAlwaysAnswered | lambda/index.ts:30-32 | OPTIONS is answered 200 whatever the referer, even a refused one |
| Gateway.RefusedReachesNoHandler | lambda/index.ts:20-26 | a refused request reaches no handler and is answered 403 |
| Gateway.MissingBodyDefaulted | lambda/index.ts:38-60 | every body-taking handler receives `{}` in place of a missing or empty body |
| ImageStore.FindAttribute | lambda/handlers/images.ts:28-30 | the first attribute with the name, or none exactly when no attribute has it |
| ImageStore.Token | lambda/handlers/images.ts:24 | the header is `Bearer ` followed by the token |
| ImageStore.GetUserEmail | lambda/handlers/images.ts:18-35 | never empty; `shared` without a Bearer header or with a rejected token; for an accepted token, its non-empty email attribute, and `shared` when that attribute is absent or empty; any answer other than `shared` is such an attribute |
| ImageStore.KeyFor | lambda/handlers/images.ts:60-61 | the key lies strictly inside the user's folder |
| ImageStore.KeyRoundTrip | lambda/handlers/images.ts:125-128 | reading the date back from a key gives the date it was written for |
| ImageStore.KeyInjective | lambda/handlers/images.ts:60-61 | distinct (user, day) pairs get distinct keys: one object per user per day |
| ImageStore.OtherFolder | lambda/handlers/images.ts:114-117 | no key of another user lies in a user's folder |
| ImageStore.CollectMembers | lambda/handlers/images.ts:122-139 | the collected images are exactly the keys of the listing other than the folder key itself, each turned into a date and a signed URL |
| ImageStore.NewestFirstIsTotalPreorder | lambda/handlers/images.ts:141 | the newest-first comparator is total and transitive |
| ImageStore.Bucket.UploadImage | lambda/handlers/images.ts:37-105 | 400 and no change without image data; a successful write sets the caller's key for today to the decoded image and changes nothing else; the reply is 200 only when the write also beats the 25-second timer, so a late write is stored but answered with 500; a failed write changes nothing |
| ImageStore.Bucket.ListKeys | lambda/handlers/images.ts:114-119 | every key under the prefix, each exactly once |
| ImageStore.Bucket.ListImagesFor | lambda/handlers/images.ts:107-156 | the images are exactly the listing of the user's folder, newest first, one entry per stored object: each image occurs as often as there are listed keys showing it |
| ImageStore.Bucket.GetImages | lambda/handlers/images.ts:107-156 | the caller's images, exactly their folder's listing with one entry per stored object, newest first |
| ImageStore.CollectedCounts | lambda/handlers/images.ts:122-139 | pushing one image per distinct listed key gives as many images as listed objects, each image as often as the keys that show it |
| ImageStore.Bucket.CollectKeys | lambda/handlers/images.ts:122-139 | the loop over the listed keys collects exactly `Collect(keys)`: one image per key other than the folder key, in listing order (`CollectMembers`: an image is collected exactly when some listed key other than the folder key shows it) |
| ImageStore.CollectedIsListing | lambda/handlers/images.ts:122-139 | collecting all listed keys gives exactly the folder's listing |
| ImageStore.UploadedImageListed | lambda/handlers/images.ts:37-156 | an image stored for a day is listed back for that day, under its own key's signed URL |
| ImageStore.OwnImagesOnly | lambda/handlers/images.ts:114-117 | every listed image is shown by a stored key in the caller's own folder, and that key is no other user's key for any date |
| LegacyApi.LegacyUserEmail | lambda/api/index.ts:264-275 | `shared` without a Bearer header; failure exactly when the token is rejected; for an accepted token, its non-empty email attribute, or `shared` when that attribute is absent or empty; never empty |
| LegacyApi.LegacyEmailAgrees | lambda/api/index.ts:264-275 | whenever the older lookup succeeds it finds the same email as the newer handlers; where it fails, the newer one answers `shared` |
| LegacyApi.LegacyUploadImage | lambda/api/index.ts:258-310 | on success the caller's key for today is set and nothing else changes; a failed lookup, missing data or a failed write changes nothing |
| LegacyApi.LegacyGetImages | lambda/api/index.ts:312-373 | failure exactly when the lookup fails; otherwise exactly the caller's listing with one entry per stored object, newest first |
| Preferences.LanguageOf | lambda/handlers/preferences.ts:41-47 | the stored language when there is a non-empty one, `tr` otherwise; never empty |
| Preferences.WriteThenRead | lambda/handlers/preferences.ts:83-94 | after a write, reading the same user gives the written language |
| Preferences.WriteIsolated | lambda/handlers/preferences.ts:83-94 | a write leaves every other user's language unchanged |
| Preferences.PreferencesTable.GetUserPreferences | lambda/handlers/preferences.ts:21-58 | 401 without a user; 500 when the table cannot be read; otherwise the caller's language; always a supported language on a valid table |
| Preferences.PreferencesTable.UpdateUserPreferences | lambda/handlers/preferences.ts:60-109 | 401 or 400 leave the table unchanged; success overwrites exactly the caller's record; a failed write changes nothing; validity is preserved |
| VideoService.OutName | lambda/handlers/video.ts:54 | the output file lies in the user's own folder |
| VideoService.OutNameInjective | lambda/handlers/video.ts:54 | renders that one user starts at different instants write different files |
| VideoService.RenderVideo | lambda/handlers/video.ts:24-99 | 401 exactly without a user; 400 exactly without images; a started render carries the renderer's id, the videos bucket and the output name `{sub}/{now}.mp4`, which lies in the user's folder |
| VideoService.RenderIdOf | lambda/handlers/video.ts:115-124 | never an empty id, and a non-empty path parameter takes precedence |
| VideoService.RenderIdFromPath | lambda/handlers/video.ts:115-124 | without a path parameter, the id is read back from `/video/status/{id}` |
| VideoService.Stub | lambda/handlers/video.ts:137-145 | the stand-in progress is finished, at 100%, with the file under `renders/{id}/{outName}` in the videos bucket |
| VideoService.BucketOfUrl | lambda/handlers/video.ts:159-175 | a bucket found is non-empty and contains no `/` |
| VideoService.ParseS3Url | lambda/handlers/video.ts:159-175 | `s3://B/K` parses back to bucket B and key K |
| VideoService.KeyOfUrl | lambda/handlers/video.ts:163 | the key is never longer than the URL, and a URL with no `s3://bucket` in it is left unchanged |
| VideoService.OutputFileOf | lambda/handlers/video.ts:147-176 | a URL only for a finished render; the stored output name takes precedence and is signed in the videos bucket; without a name, the URL is the bucket and key read from the progress's `s3://` URL, signed, and there is none when the progress has no output file, no `s3://` bucket or an empty key |
| VideoService.S3FallbackSigned | lambda/handlers/video.ts:159-175 | a finished render with no stored name and output file `s3://B/K` (B non-empty without `/`, K non-empty) gets exactly `sign(B, K)` |
| VideoService.GetRenderStatus | lambda/handlers/video.ts:101-195 | 401 without a user; 400 without a render id; otherwise the reported progress (or the stub) with the signed output URL, and never a URL while unfinished |
| VideoService.DoneWithOutName | lambda/handlers/video.ts:147-158 | a finished render with a known file name is signed at `renders/{id}/{outName}` in the videos bucket |
| VideoService.StubWithoutOutName | lambda/handlers/video.ts:137-175 | when the progress query fails and no name was given, a URL is still signed, for the key `renders/{id}/undefined` |
| VideoService.EmptyKeyNoOutput | lambda/handlers/video.ts:159-175 | an output URL with an empty key yields no signed URL |
| FamilyTree.GetMemberById | frontend/src/FamilyTree.tsx:91 | the first member with the id, or none exactly when no member has it |
| FamilyTree.FirstMemberWins | frontend/src/FamilyTree.tsx:91 | a member preceded by no other member with its id is the one found |
| FamilyTree.GetSpouse | frontend/src/FamilyTree.tsx:93-96 | none when `marriedTo` is unset or empty, otherwise the lookup of that id |
| FamilyTree.OldestFirstIsTotalPreorder | frontend/src/FamilyTree.tsx:106-109 | the birthday comparator is total and transitive |
| FamilyTree.ChildrenSpec | frontend/src/FamilyTree.tsx:98-110 | the children are a permutation of the members that are a child of either parent (each exactly as often as in the list), oldest first |
| FamilyTree.GetChildren | frontend/src/FamilyTree.tsx:98-110 | the listed children are exactly the members that are a child of the member or of their spouse |
| FamilyTree.MergeRoots | frontend/src/FamilyTree.tsx:60-74 | roots 1 and 2 come first, married to each other, followed by exactly the other members |
| FamilyTree.MergeRootsKeepsOthers | frontend/src/FamilyTree.tsx:70-74 | behind the two roots, the other members follow in their original order, each as often as in the fetched list |
| FamilyTree.RootsMarried | frontend/src/FamilyTree.tsx:60-74 | after the merge, root 1 is found by id and roots 1 and 2 are each other's spouse |
| FamilyTree.ShownChildren | frontend/src/FamilyTree.tsx:201-205 | a collapsed member descends into nothing, an expanded one into its sorted children |
| FamilyTree.Render | frontend/src/FamilyTree.tsx:132-225 | the card shows the member, and shows the spouse exactly when toggled on and found; the branches are the shown children, in order |
| FamilyTree.RootView | frontend/src/FamilyTree.tsx:242-259 | a tree is drawn exactly when member 1 exists, and it is rooted at member 1 |
| FamilyTree.CollapseHidesSubtree | frontend/src/FamilyTree.tsx:122-130 | collapsing a member hides its whole subtree and leaves its card unchanged |
| FamilyTree.FamilyTreeView.constructor | frontend/src/FamilyTree.tsx:23-26 | no members, not loading, nothing expanded |
| FamilyTree.FamilyTreeView.ToggleSpouse | frontend/src/FamilyTree.tsx:112-120 | flips only that id in the spouse set; nothing else changes |
| FamilyTree.FamilyTreeView.ToggleChildren | frontend/src/FamilyTree.tsx:122-130 | flips only that id in the children set; nothing else changes |
| FamilyTree.FamilyTreeView.FetchRootMembers | frontend/src/FamilyTree.tsx:52-85 | with both roots found, the merged list; otherwise the whole list; a thrown fetch keeps the old list; loading ends false |
| FamilyTreeNode.Click | frontend/src/FamilyTreeNode.tsx:33-69 | a non-empty cache only toggles visibility; otherwise a successful fetch stores the list and shows it, and a failed one changes nothing |
| FamilyTreeNode.CachedClickTwice | frontend/src/FamilyTreeNode.tsx:33-37 | with a cached list, two clicks restore the section whatever the fetches would return |
| FamilyTreeNode.FetchedListShown | frontend/src/FamilyTreeNode.tsx:44-46 | a non-empty fetched list is drawn, and later clicks use the cache |
| FamilyTreeNode.EmptyFetchRefetches | frontend/src/FamilyTreeNode.tsx:44-46 | an empty or absent list draws nothing, and the next click fetches again |
| FamilyTreeNode.TreeNode.constructor | frontend/src/FamilyTreeNode.tsx:27-31 | empty caches, both sections hidden, not loading |
| FamilyTreeNode.TreeNode.FetchChildren | frontend/src/FamilyTreeNode.tsx:33-51 | fetches exactly when the cache is empty; the children section becomes its click result; the parents section is unchanged |
| FamilyTreeNode.TreeNode.FetchParents | frontend/src/FamilyTreeNode.tsx:53-69 | the same rules on the parents section; the children section is unchanged |
| DailyCalendar.MondayOffset | frontend/src/pages/images/Images.tsx:53-54 | the offset back to Monday is between 0 and 6 days |
| DailyCalendar.StartDate | frontend/src/pages/images/Images.tsx:53-56 | the grid starts on a Monday at most six days before today |
| DailyCalendar.GetContinuousDays | frontend/src/pages/images/Images.tsx:48-68 | seven days per week to show; entry k is day k mod 7 of the week k div 7 rows back |
| DailyCalendar.GridRows | frontend/src/pages/images/Images.tsx:59-65 | each row runs Monday to Sunday on consecutive days, and each row is the week before the row above |
| DailyCalendar.GetMobileDays | frontend/src/pages/images/Images.tsx:70-82 | entry i is i days before today, so the list strictly decreases |
| DailyCalendar.Trichotomy | frontend/src/pages/images/Images.tsx:84-116 | every day is exactly one of past, today and future |
| DailyCalendar.IsDayInPast | frontend/src/pages/images/Images.tsx:91-97 | a day is in the past exactly when its calendar date comes before today's |
| DailyCalendar.IsToday | frontend/src/pages/images/Images.tsx:110-116 | a day is today exactly when it has today's calendar date |
| DailyCalendar.IsImageLoading | frontend/src/pages/images/Images.tsx:106-108 | while loading, exactly the past days and today show a spinner; after loading, none does |
| Calendar.IsDayInFuture | frontend/src/pages/images/Images.tsx:84-89 | a day is in the future exactly when its calendar date comes after today's |
| Calendar.DayOrderIsCalendarOrder | frontend/src/pages/images/Images.tsx:84-97 | comparing two days at midnight is comparing their calendar dates by year, then month, then day |
| DailyCalendar.FindByDate | frontend/src/pages/images/Images.tsx:102 | none exactly when no image has the date; otherwise the first image of that date |
| DailyCalendar.UrlOf | frontend/src/pages/images/Images.tsx:103 | a URL exactly when there is an image with a non-empty URL |
| DailyCalendar.GetImageForDate | frontend/src/pages/images/Images.tsx:100-104 | a URL exactly when the first image of that date has a non-empty URL, and then that URL; none for a date no image has |
| DailyCalendar.Optimistic | frontend/src/pages/images/Images.tsx:151-154 | the new photo comes first, dated today, followed by exactly the old entries of other days |
| DailyCalendar.OptimisticKeepsOthers | frontend/src/pages/images/Images.tsx:151-154 | behind the new photo, the old entries of other days keep their original order, each as often as before |
| DailyCalendar.OptimisticShowsUpload | frontend/src/pages/images/Images.tsx:144-154 | after the optimistic update today's cell shows the new photo and every other cell shows what it showed before |
| DailyCalendar.DailyCalendarPage.constructor | frontend/src/pages/images/Images.tsx:13-16 | no images, loading, four weeks, not uploading |
| DailyCalendar.DailyCalendarPage.LoadImages | frontend/src/pages/images/Images.tsx:20-42 | the fetched list (empty when absent), the old list when the fetch throws; loading ends |
| DailyCalendar.DailyCalendarPage.HandleImageUpload | frontend/src/pages/images/Images.tsx:144-183 | the list is the optimistic one unless an accepted upload is followed by a successful reload; uploading ends false |
| DailyCalendar.DailyCalendarPage.LoadMoreWeeks | frontend/src/pages/images/Images.tsx:192-194 | four more weeks; nothing else changes |
| MonthCalendar.AddMonths | frontend/src/Images.tsx:70-71 | always a valid month, exactly `direction` months away |
| MonthCalendar.LaterIsIndexOrder | frontend/src/Images.tsx:75-79 | "later than" is the order of month indices |
| MonthCalendar.NavigateMonth | frontend/src/Images.tsx:68-85 | the month `direction` steps away, unless that is after the current month, in which case the month is unchanged |
| MonthCalendar.NavigationStaysInPast | frontend/src/Images.tsx:73-81 | navigation never goes past the current month |
| MonthCalendar.ForwardEnabledIffMoves | frontend/src/Images.tsx:104-108 | the forward button is enabled exactly when going forward moves, and then it moves one month |
| MonthCalendar.CanNavigateForward | frontend/src/Images.tsx:104-108 | for valid months, the forward button is enabled exactly when the shown month is not the current one |
| MonthCalendar.NextMonth | frontend/src/Images.tsx:34 | the month after December is January of the next year; otherwise the next month of the same year |
| MonthCalendar.LastDayIsMonthLength | frontend/src/Images.tsx:33-35 | day 0 of the next month is the last day of the month, and its date is the Gregorian month length |
| MonthCalendar.DaysInShownMonth | frontend/src/Images.tsx:35 | the length read from the last day is the Gregorian month length |
| MonthCalendar.GridCells | frontend/src/Images.tsx:40-51 | the grid has its blanks first, then consecutive days |
| MonthCalendar.GetDaysInMonth | frontend/src/Images.tsx:30-54 | the result is the month grid |
| MonthCalendar.FillGrid | frontend/src/Images.tsx:40-53 | the two loops build the blanks and then the days of the month |
| MonthCalendar.MonthGridShape | frontend/src/Images.tsx:30-54 | one blank per weekday before the 1st, so the 1st falls in its weekday's column, then the days 1, 2, … in order |
| MonthCalendar.MobileDays | frontend/src/Images.tsx:168-170 | exactly the non-blank days of the grid up to today, i.e. not in the future |
| MonthCalendar.MobileDaysDescending | frontend/src/Images.tsx:168-170 | reversing an ascending grid gives a strictly descending list |
| MonthCalendar.MonthMobileList | frontend/src/Images.tsx:168-170 | the mobile list is exactly the month's days up to today, strictly newest first |
| MonthCalendar.MonthCalendarPage.constructor | frontend/src/Images.tsx:10-12 | the current month, no images, loading |
| MonthCalendar.MonthCalendarPage.LoadImages | frontend/src/Images.tsx:18-28 | the fetched list (empty when absent), the old list when the fetch throws; loading ends |
| MonthCalendar.MonthCalendarPage.Navigate | frontend/src/Images.tsx:14-16 | the month shown follows `navigateMonth` and never passes the current month; a move reloads the images, a refused move changes nothing |
| VideoEditor.OldestFirstIsTotalPreorder | frontend/src/pages/video/Video.tsx:103 | the date comparator is total and transitive |
| VideoEditor.DateRangeSpec | frontend/src/pages/video/Video.tsx:95-104 | the range list holds exactly the images dated within the range, both ends included, each as often as in the input, oldest first |
| VideoEditor.GetDateRangeImages | frontend/src/pages/video/Video.tsx:95-104 | the range list is a permutation of the images dated within the range, both ends included: each occurs as often as in the input, every other image not at all |
| VideoEditor.FilteredWithinRange | frontend/src/pages/video/Video.tsx:72-83 | the filtered list is the range list without the unselected dates: a selected image occurs as often as in the range list, any other not at all; it is oldest first |
| VideoEditor.GetFilteredImages | frontend/src/pages/video/Video.tsx:72-83 | the filtered list is a permutation of the images dated within the range whose date is selected: each occurs as often as in the input |
| VideoEditor.AutoSelect | frontend/src/pages/video/Video.tsx:36-48 | exactly the dates of the images within the range |
| VideoEditor.AutoSelectShowsRange | frontend/src/pages/video/Video.tsx:36-83 | right after the auto-select effect, the filtered list is the whole range list |
| VideoEditor.ReversedRangeEmpty | frontend/src/pages/video/Video.tsx:38-43 | a start after the end shows nothing and selects nothing |
| VideoEditor.DurationInFrames | frontend/src/pages/video/Video.tsx:112 | with 3 to 10 seconds per image, n images last between 90 n and 300 n frames, and more than zero when n is positive |
| VideoEditor.VideoEditorPage.constructor | frontend/src/pages/video/Video.tsx:14-28 | the range from a month ago to today, nothing selected, 3 seconds per image |
| VideoEditor.VideoEditorPage.SyncSelection | frontend/src/pages/video/Video.tsx:36-48 | the selection becomes the range's dates; nothing else changes |
| VideoEditor.VideoEditorPage.LoadImages | frontend/src/pages/video/Video.tsx:50-70 | the fetched list (empty when absent), or the old list; the selection is then resynchronised |
| VideoEditor.VideoEditorPage.SetStartDate | frontend/src/pages/video/Video.tsx:36-48 | a new start date, then the resynchronised selection |
| VideoEditor.VideoEditorPage.SetEndDate | frontend/src/pages/video/Video.tsx:36-48 | a new end date, then the resynchronised selection |
| VideoEditor.VideoEditorPage.ToggleImageSelection | frontend/src/pages/video/Video.tsx:85-93 | flips only that date in the selection; nothing else changes |
| VideoEditor.VideoEditorPage.SetImageDuration | frontend/src/pages/video/Video.tsx:177-182 | the slider's value becomes the duration, which stays within 3 to 10 |
| VideoEditor.VideoEditorPage.PlayerDuration | frontend/src/pages/video/Video.tsx:109-112 | the player's length in frames for the current selection, at least 90 frames per image |
| Timelapse.CurrentImage | frontend/src/remotion/TimelapseVideo.tsx:27-31 | with a positive frame count per image, an image is drawn exactly while the index is in the list, and it is the image at that index |
| Timelapse.FrameWindow | frontend/src/remotion/TimelapseVideo.tsx:27-29 | frames `i·fpi` up to `(i+1)·fpi` show image i |
| Timelapse.PastTheEnd | frontend/src/remotion/TimelapseVideo.tsx:29-31 | from frame `n·fpi` on, nothing is drawn |
| Timelapse.IndexMonotone | frontend/src/remotion/TimelapseVideo.tsx:28 | a later frame never shows an earlier image |
| Timelapse.EveryFrameShown | frontend/src/remotion/TimelapseVideo.tsx:27-31 | with the editor's duration and 30 frames per second, every frame of the video shows an image |
| Timelapse.TurkishMonthsDistinct | frontend/src/remotion/TimelapseVideo.tsx:36-49 | twelve distinct month names, none containing a space |
| Timelapse.TurkishLabelParts | frontend/src/remotion/TimelapseVideo.tsx:50 | the label splits back into day, month name and year |
| Timelapse.TurkishLabelInjective | frontend/src/remotion/TimelapseVideo.tsx:33-50 | different dates get different labels |
| Timelapse.FormatDateTrInjective | frontend/src/remotion/TimelapseVideo.tsx:33-50 | different days get different labels |
| Timelapse.FormatDate | frontend/src/remotion/TimelapseVideo.tsx:33-51 | the label is `NaN undefined NaN` exactly for the texts that name no day |
| Timelapse.CurrentLabel | frontend/src/remotion/TimelapseVideo.tsx:27-31 | with positive frames per image, a label exactly while frame / framesPerImage indexes an image, and it is that image's date label |
| Timelapse.FrameLabel | frontend/src/remotion/TimelapseVideo.tsx:27-50 | the frames of image i, dated with the text of a day, carry that day's label: the label belongs to the image drawn |
| Timelapse.UndatedLabel | frontend/src/remotion/TimelapseVideo.tsx:33-50 | text that cannot be a `YYYY-MM-DD` date is labelled `NaN undefined NaN` |
| Language.Translate | frontend/src/contexts/LanguageContext.tsx:206-212 | throws exactly when the language has no table; otherwise the non-empty entry, or the key itself |
| Language.SupportedLookup | frontend/src/contexts/LanguageContext.tsx:206-212 | for `tr` and `en` the lookup never throws, and a non-empty key never reads as empty text |
| Language.AdoptAsWritten | frontend/src/contexts/LanguageContext.tsx:179-184 | any non-empty language of an ok response is adopted; otherwise the language is unchanged |
| Language.AdoptAsWrittenBreaksLookup | frontend/src/contexts/LanguageContext.tsx:179-184 | as written, a server answer of `fr` is adopted and every later lookup throws |
| Language.AdoptChecked | frontend/src/contexts/LanguageContext.tsx:162-167 | only `tr` or `en` is adopted, so a supported language stays supported |
| Language.AdoptCheckedKeepsLookup | frontend/src/contexts/LanguageContext.tsx:174-189 | with the check, the lookup never throws, whatever the server answers |
| Language.AdoptionsAgreeOnSupported | frontend/src/contexts/LanguageContext.tsx:179-184 | on supported answers, which are all a valid preferences table gives, the two adoptions agree |
| Language.LanguageState.constructor | frontend/src/contexts/LanguageContext.tsx:159 | the state starts in `tr` |
| Language.LanguageState.Mount | frontend/src/contexts/LanguageContext.tsx:162-167 | a saved value is adopted only if it is `tr` or `en`; support is preserved |
| Language.LanguageState.SetLanguage | frontend/src/contexts/LanguageContext.tsx:169-172 | the state and the stored item get the same language |
| Language.LanguageState.LoadUserPreferences | frontend/src/contexts/LanguageContext.tsx:174-189 | the checked adoption, stored as well; support is preserved |
| Language.LanguageState.T | frontend/src/contexts/LanguageContext.tsx:206-212 | `t(key)` is the current language's text for the key or the key itself; in a valid state with both languages present it never throws, and a non-empty key never reads as empty text |
| RegisterForm.Validate | frontend/src/pages/auth/Register.tsx:23-31 | the mismatch message first, then the length message; no error exactly when the passwords match and have at least 8 characters |
| RegisterForm.ErrorOf | frontend/src/pages/auth/Register.tsx:44-51 | a not-ok answer shows its message or `Registration failed`, never the empty text; a thrown error shows its message, or the generic text |
| RegisterForm.RegisterFormState.constructor | frontend/src/pages/auth/Register.tsx:13-17 | empty fields, no error, not loading |
| RegisterForm.RegisterFormState.Edit | frontend/src/pages/auth/Register.tsx:13-15 | the inputs change; error and loading do not |
| RegisterForm.RegisterFormState.HandleSubmit | frontend/src/pages/auth/Register.tsx:19-55 | the request is sent exactly when validation passes; otherwise the validation error is shown; success hands the email on with no error; failure shows its error; loading ends false |
| RegisterForm.FailedSubmitShowsError | frontend/src/pages/auth/Register.tsx:19-55 | a validation failure or a not-ok answer always leaves a non-empty error |
| AuthFlow.Step | frontend/src/Auth.tsx:8-41 | a completed registration, in whatever view it arrives, shows the verify view with its email; a completed verification shows the login view and keeps the email; the verify view is shown, and the pending email changes, only after a registration |
| AuthFlow.NoClickFromLoginToVerify | frontend/src/Auth.tsx:23-25 | no link click leads from the login view straight to the verify view |
| AuthFlow.CompletionInAnyView | frontend/src/Auth.tsx:12-19 | after any run of callbacks, a completed registration opens verify with its email and a completed verification opens login keeping the pending email |
| AuthFlow.LateRegistrationFromLogin | frontend/src/Auth.tsx:12-15 | a registration that completes after the user went back to login takes the screen from login straight to verify, with that email |
| AuthFlow.LateVerificationFromRegister | frontend/src/Auth.tsx:17-19 | a verification that completes after the user went back to register still switches to login |
| AuthFlow.PendingIsLatest | frontend/src/Auth.tsx:12-15 | after any run of callbacks, the pending email is the one of the latest registration |
| AuthFlow.VerifyReachedByRegistration | frontend/src/Auth.tsx:12-36 | reaching the verify view from elsewhere, the last callback registered the pending email |
| AuthFlow.AuthScreen.constructor | frontend/src/Auth.tsx:9-10 | the login view with no pending email |
| AuthFlow.AuthScreen.SwitchToRegisterView | frontend/src/Auth.tsx:24 | the login view's switch follows `Step` |
| AuthFlow.AuthScreen.SwitchToLoginView | frontend/src/Auth.tsx:28 | the register view's switch follows `Step` |
| AuthFlow.AuthScreen.HandleRegistrationSuccess | frontend/src/Auth.tsx:12-15 | in any view, the verify view with the registered email |
| AuthFlow.AuthScreen.HandleVerificationSuccess | frontend/src/Auth.tsx:17-19 | in any view, the login view, keeping the pending email |
| AuthFlow.AuthScreen.GoBack | frontend/src/Auth.tsx:36 | back to register, keeping the pending email |
| Sets.ToggleTwice | frontend/src/pages/video/Video.tsx:85-93 | toggling the same element twice restores the set |
| Sets.Toggle | frontend/src/pages/video/Video.tsx:85-93 | the element is in the result exactly when it was not in the set, and every other element keeps its membership |
| Calendar.CivilRoundTrip | frontend/src/Images.tsx:48-50 | a valid calendar date is the date of its own day ordinal: the two conversions are inverse |
| Calendar.IsoDate | frontend/src/pages/images/Images.tsx:101 | for the years 0 to 9999 the text is four digits, a dash, two digits, a dash and two digits |
| Calendar.ParseIsoDate | frontend/src/remotion/TimelapseVideo.tsx:34 | only ten-character texts parse, and a text that parses is the date text of the day it names |
| Calendar.IsoDateRoundTrip | frontend/src/remotion/TimelapseVideo.tsx:34 | `new Date` on the `YYYY-MM-DD` text of a day of the years 0 to 9999 gives back that day |
| Calendar.Weekday | frontend/src/Images.tsx:36 | `getDay()` is between 0 (Sunday) and 6 |

## Left out

- The cloud services are parameters and are not modelled. These are Cognito (the identity
  provider, and the auth handlers behind `/auth/*`), S3 signing, DynamoDB's own behaviour,
  the Remotion renderer and base64 decoding.
- The catch-all 500 of each handler is modelled only where a failure is an input of the
  operation. Malformed JSON bodies are not modelled.
- ImageStore.NewestFirstIsTotalPreorder: `localeCompare` is modelled as code-point text order.
  The two agree on the digit-and-dash dates the keys carry, but not on arbitrary text.
- The S3 listing is modelled as a single page. Pagination and the 1000-key cap are not.
- Time zones are not modelled, so the difference between UTC and local midnight (`toISOString`
  against `getDate`) is lost. Every page `Date` is a whole local day.
- Invalid date strings, which JavaScript turns into `NaN` dates, are modelled only for the
  timelapse label, where any text other than a `YYYY-MM-DD` date of a real day reads
  `NaN undefined NaN`. Elsewhere they are not modelled.
- Calendar.ParseIsoDate: only the `YYYY-MM-DD` form is read. The other forms `new Date`
  accepts, and an engine's rolling over of a day past the month's end, are not modelled.
- `setMonth` day overflow (31 January plus one month) is not modelled, because months are
  (year, month) pairs.
- VideoEditor.InRange: dates are compared as ISO text, which matches the page's `new Date(...)`
  comparisons only for well-formed `YYYY-MM-DD` dates. Birthdays in the family tree are
  compared the same way.
- FamilyTree.Render: a depth bound stops the recursion on member data whose parent links form
  a cycle. The page recurses without one.
- FamilyTree.Render: the spouse card's own nested spouse rendering (FamilyTree.tsx line 194)
  is not modelled.
- The unused `fetchMembers` and `fetchMemberById` of the family tree page are not modelled.
- The `disabled={loading}` buttons are not modelled.
- Floating-point values are not modelled:
  - the renderer's `overallProgress` is a `real` passed through unchanged;
  - image compression is not modelled;
  - the timelapse's fade interpolation is not modelled.
- The English date label (`toLocaleDateString`) is not modelled; only the Turkish label is.
- DailyCalendar.DailyCalendarPage.HandleImageUpload: the 500 ms and 1 s delays and the
  compression step are not modelled. Whether the upload is accepted is a parameter.
- RegisterForm.Validate: the length check counts characters. JavaScript counts UTF-16 code
  units, which differs for characters outside the Basic Multilingual Plane.
- Language.Translate: keys that name prototype properties of a JavaScript object are not
  modelled.
- Language.LanguageState.LoadUserPreferences: a `language` field that is not a string is not
  modelled.
- Language.LanguageState.LoadUserPreferences: the method follows the corrected check (see
  Findings). The behaviour as written is `Language.AdoptAsWritten`.
- AuthFlow.AuthScreen.HandleRegistrationSuccess: a request completing after its form was left
  also sets that form's own error and loading state, which React then discards; that is not
  modelled.
- Background colour and transition props of the video editor are not modelled.

## Findings

| source | as written | input that shows it | evidently intended | confidence | as-written member | corrected member |
|---|---|---|---|---|---|---|
| frontend/src/contexts/LanguageContext.tsx:179-184 | any truthy `language` of an ok preferences response is adopted and saved | the server answers `{"language": "fr"}`, so `translations["fr"]` is undefined and every later `t(key)` throws | the same `tr`/`en` check as for a saved value (lines 163-166) | low, not executed; the preferences handler only ever stores `tr` or `en` | Language.AdoptAsWrittenBreaksLookup | Language.AdoptCheckedKeepsLookup |
