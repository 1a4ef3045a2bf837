# djvoice admin: a Dafny model

This project models the logic of the djvoice site's admin area and of its
public mixtape list. The rest of those programs is user interface and calls
to a hosted database. The modelled parts are:

- the `verify-admin-secret` serverless function, which turns a request into a
  status and a verdict;
- the browser session marker `admin_verified`, written by the login page and
  checked and removed by the admin layout;
- the formatting helpers of the mixtape list (durations, dates, descriptions
  and covers);
- the admin screens for mixtapes, events, portfolio items, posts, media,
  bookings and subscribers. Each screen is modelled as a form state machine
  (`editingId`, the form, the chosen files, the dialog) or as a table of rows
  that the screen writes;
- the object paths of uploaded files, and how they are recovered from a
  stored public URL;
- the subscriber CSV export;
- the dashboard's figures.

Things from outside the programs are parameters:

- the clock, random file names and the locale's date rendering;
- the storage service's errors and public URLs;
- the ids the database assigns and the database's errors;
- the browser's `confirm()` answer;
- JSON parsing and printing of a mixtape's tracklist.

A remote table that a screen writes row by row is a `map` from id to row.
It is held in a field of the screen's class.

Module layout, one module per source file plus shared helpers:

- `Wrappers`: optional values (`null` / `undefined`).
- `Text`:
  - decimal rendering of integers, `padStart` and `parseInt` on decimal text;
  - `split` / `join` with a non-empty separator;
  - the truthiness of nullable strings.
- `Uploads`: the last-dot extension rule, upload paths, and storage-path
  recovery.
- `Crud`: the insert-or-update choice and row removal.
- `Session`: `localStorage`.
- `VerifyAdminSecret`, `AdminLogin`, `AdminLayout`, `Mixtapes`,
  `AdminMixtapes`, `AdminEvents`, `AdminPortfolio`, `AdminPosts`,
  `AdminMedia`, `AdminBookings`, `AdminSubscribers`, `AdminDashboard`: one
  module for each source file of the same name.

The login handler's `await` splits it into two methods, `StartLogin` and
`FinishLogin`. This makes "busy while the verdict is pending" part of the
state.

## Model

| member | source | states |
|---|---|---|
| VerifyAdminSecret.Handle | supabase/functions/verify-admin-secret/index.ts:8-39 | A pre-flight `OPTIONS` request gets "ok" with the CORS headers. Otherwise every response is JSON and carries the CORS headers, and its status is 200, 400 or 401. `valid` is true exactly when the body was read and the candidate equals the configured, non-empty secret, and only with status 200. The status is 401 exactly for a wrong or missing candidate against a configured secret, with error "Invalid secret". The status is 400 exactly for an unreadable body (error: the exception's message) or a missing or empty secret (error: "Admin secret not configured"). |
| VerifyAdminSecret.NeverValidWhenUnconfigured | supabase/functions/verify-admin-secret/index.ts:17-19 | Without a configured secret, no request is told `valid: true`, and every request other than a pre-flight gets status 400. |
| VerifyAdminSecret.EmptyCandidateNeverValid | supabase/functions/verify-admin-secret/index.ts:17-26 | A missing or empty candidate is never accepted, whatever the configuration. |
| Session.Grant | src/pages/AdminLogin.tsx:49 | After the marker is written the store is authorised. No other key is added or changed. |
| Session.Revoke | src/components/admin/AdminLayout.tsx:35 | After the marker is removed the store is not authorised. The other keys are kept unchanged. |
| Session.GrantRevoke | src/components/admin/AdminLayout.tsx:35 | Revoking after a grant leaves no marker, and equals revoking alone. Granting after a revoke authorises. |
| Session.LocalStorage.GetItem | src/components/admin/AdminLayout.tsx:21 | Returns the stored value, or null for a missing key. |
| Session.LocalStorage.SetItem | src/pages/AdminLogin.tsx:49 | The key maps to the value and the rest of the store is unchanged. |
| Session.LocalStorage.RemoveItem | src/components/admin/AdminLayout.tsx:35 | The key is gone and the rest of the store is unchanged. |
| AdminLogin.OutcomeOf | src/pages/AdminLogin.tsx:41-45 | A verifier response outside 2xx reaches the page as an error. Any other response reaches it as data. |
| AdminLogin.GrantOnlyOnMatch | src/pages/AdminLogin.tsx:41-51 | End to end: a login against the verifier grants access exactly when the candidate equals the configured, non-empty secret. |
| AdminLogin.LoginPage.constructor | src/pages/AdminLogin.tsx:11-12 | The secret starts empty and the page is not busy. |
| AdminLogin.LoginPage.SetSecret | src/pages/AdminLogin.tsx:80 | The input replaces the secret and leaves the busy flag alone. |
| AdminLogin.LoginPage.StartLogin | src/pages/AdminLogin.tsx:36-38 | The page is busy while the verdict is pending. |
| AdminLogin.LoginPage.FinishLogin | src/pages/AdminLogin.tsx:45-59 | The marker is written, and the page goes to `/admin/dashboard`, only on a returned, truthy `valid` whose `setItem` does not throw. An error, an invalid verdict or a throwing `setItem` (caught like any error) leaves the store unchanged with no navigation. The page is not busy afterwards on every path. No key is ever removed. |
| AdminLayout.IsActive | src/components/admin/AdminLayout.tsx:54 | A navigation item is highlighted exactly when the pathname equals its path. |
| AdminLayout.AtMostOneActive | src/components/admin/AdminLayout.tsx:40-54 | The eight navigation paths are pairwise distinct, so no pathname highlights two items. |
| AdminLayout.Layout.constructor | src/components/admin/AdminLayout.tsx:12 | The layout starts in its loading state. |
| AdminLayout.Layout.CheckAuth | src/components/admin/AdminLayout.tsx:19-32 | A missing or empty marker, or a read that throws, redirects to `/admin/login` and keeps the loading state. Any other value, not only "true", ends loading with no redirect. |
| AdminLayout.Layout.HandleLogout | src/components/admin/AdminLayout.tsx:34-38 | The marker is removed (only it) and the page goes to `/admin/login`. |
| AdminLayout.LogoutThenCheck | src/components/admin/AdminLayout.tsx:19-38 | A gate check right after a logout redirects to the login page. |
| Mixtapes.JsRemainder | src/components/Mixtapes.tsx:29 | JavaScript's `%` with a positive divisor. The remainder lies in [0, b) for a non-negative dividend and in (-b, 0] for a negative one. The dividend minus the remainder is a multiple of b, which fixes the value. |
| Mixtapes.DivMod | src/components/Mixtapes.tsx:28-29 | A number minus its Euclidean remainder is b times the quotient, a multiple of b. |
| Mixtapes.FormatDuration | src/components/Mixtapes.tsx:26-31 | A null or zero duration is "0:00". |
| Mixtapes.TwoDigitSeconds | src/components/Mixtapes.tsx:30 | A seconds value below 60, padded with '0', is exactly two digits that denote it. |
| Mixtapes.DurationParts | src/components/Mixtapes.tsx:26-31 | For every natural s, the text is: the unpadded decimal of floor(s / 60), then ':', then two digits denoting a value below 60. 60 × minutes + seconds gives s back. |
| Mixtapes.DurationText | src/components/Mixtapes.tsx:26-31 | For every natural s, including 0, the text is the decimal of floor(s / 60), a ':', and the decimal of s mod 60 padded with '0' to two characters. So the zero special case agrees with the general rule. |
| Mixtapes.HourIsSixtyMinutes | src/components/Mixtapes.tsx:28-30 | 3600 seconds is "60:00". Minutes are not wrapped into hours. |
| Mixtapes.FormatDate | src/components/Mixtapes.tsx:33-37 | A null or empty date shows as "". Any other date is the locale rendering. |
| Mixtapes.Description | src/components/Mixtapes.tsx:72 | The description is the genre if non-empty, else the vibe if non-empty, else "". It is empty exactly when both are falsy. |
| Mixtapes.Cover | src/components/Mixtapes.tsx:75 | The cover is the cover URL when truthy, else the fixed fallback picture. It is never empty. |
| Text.NatToString | src/components/Mixtapes.tsx:30 | The decimal text of a natural number (`${n}`) is a non-empty run of digits. It starts with '0' only for 0 itself. `DigitsValueOfNatToString` reads it back. |
| Text.IntToString | src/components/Mixtapes.tsx:30 | The decimal text of an integer: a '-' for a negative number, then the digits of its magnitude. `ParseIntOfIntToString` reads it back. |
| Text.PadStart | src/components/Mixtapes.tsx:30 | `padStart` gives length max(\|s\|, width), keeps s as the suffix, and fills the rest with the pad character. |
| Text.DigitsValueOfNatToString | src/components/Mixtapes.tsx:30 | The decimal rendering of n denotes n. |
| Text.ParseInt | src/pages/admin/AdminMixtapes.tsx:104 | `parseInt` is NaN exactly when no digit follows the optional sign. |
| Text.ParseIntOfIntToString | src/pages/admin/AdminMixtapes.tsx:139 | Parsing the decimal rendering of any integer gives that integer back. |
| Text.OrEmpty | src/pages/admin/AdminEvents.tsx:121-126 | `x \|\| ""` on a nullable string: null becomes "" and every string is kept. |
| Text.FindFrom | src/pages/admin/AdminMedia.tsx:157 | The `indexOf` search inside `split`. The result is an occurrence at or after `from`, with none between `from` and it. It is absent exactly when no occurrence starts at or after `from`. |
| Text.Join | src/pages/admin/AdminSubscribers.tsx:59-60 | `Array.join`: the pieces with the separator between consecutive ones, "" for no pieces. `SplitJoin`, `JoinAppend` and `JoinEndsWithLast` state its properties. |
| Text.Split | src/pages/admin/AdminMedia.tsx:157 | `split` with a non-empty separator gives at least one piece. Joining the pieces gives the input back, and no piece contains the separator. There is one piece exactly when the separator does not occur. Otherwise the first piece ends at the left-most occurrence (`indexOf`), so each cut is made at the first remaining occurrence. |
| Text.BeforeFirst | src/pages/admin/AdminMedia.tsx:157 | The text before the left-most occurrence of the separator, or the whole text when it does not occur. |
| Text.SplitHead | src/pages/admin/AdminMedia.tsx:157 | The first piece of a split is the text before the left-most occurrence of the separator. |
| Text.SplitJoin | src/pages/admin/AdminSubscribers.tsx:59-60 | Splitting the join of pieces that are free of a one-character separator gives the pieces back. |
| Text.JoinAppend | src/pages/admin/AdminSubscribers.tsx:59-60 | Appending a piece appends the separator and the piece to the join. |
| Text.JoinFree | src/pages/admin/AdminSubscribers.tsx:59-60 | A character absent from the pieces and from the separator is absent from the join. |
| Text.JoinEndsWithLast | src/pages/admin/AdminMedia.tsx:83 | The last piece (`pop()`) ends the join, preceded by the separator when there are several pieces. |
| Uploads.Extension | src/pages/admin/AdminMedia.tsx:83 | The file extension, computed by scanning back to the last '.'. `ExtensionShape` states what it is, and `ExtensionIsSplitPop` shows it equals `name.split(".").pop()`. |
| Uploads.SplitPop | src/pages/admin/AdminMedia.tsx:83 | `name.split(".").pop()` has no '.' and ends the name. It is the whole name when there is no '.', and otherwise it follows a '.'. |
| Uploads.ExtensionShape | src/pages/admin/AdminMedia.tsx:83 | The extension, found by scanning back from the end, is a '.'-free tail of the name. It is the whole name when there is no '.', and otherwise it follows a '.'. |
| Uploads.DotFreeTailUnique | src/pages/admin/AdminMedia.tsx:83 | Only one tail of a name is '.'-free and either the whole name or preceded by a '.'. So the text after the last dot is well defined. |
| Uploads.ExtensionIsSplitPop | src/pages/admin/AdminMedia.tsx:83 | For every name, the scanned extension equals `name.split(".").pop()`. |
| Uploads.ExtensionOmits | src/pages/admin/AdminMedia.tsx:83-84 | A character absent from the file name (such as '/') is absent from its extension. |
| Uploads.ExtensionAfterLastDot | src/pages/admin/AdminMedia.tsx:83 | For any prefix, the extension of `prefix.ext` is `ext` when `ext` has no '.'. |
| Uploads.UploadPath | src/pages/admin/AdminMixtapes.tsx:62-65 | The path starts with the folder and a '/'. |
| Uploads.UploadPathKeepsExtension | src/pages/admin/AdminMixtapes.tsx:63-65 | The stored object keeps the extension of the chosen file. |
| Uploads.StoragePath | src/pages/admin/AdminMedia.tsx:157-158 | The result is absent exactly when the URL does not contain "/site-images/". Otherwise it is the text between the first marker and the next one, or the end when there is no second marker. It never contains the marker. |
| Uploads.FirstMarkerAt | src/pages/admin/AdminMedia.tsx:157 | When no marker starts inside the prefix, the left-most marker of `prefix + marker + tail` is the one right after the prefix, whatever the tail holds. |
| Uploads.StoragePathRecovers | src/pages/admin/AdminMedia.tsx:157-158 | The URL `prefix + "/site-images/" + p` gives p back, when p does not contain the marker and the marker does not start inside the prefix. |
| Uploads.StoragePathTakesFirstSegment | src/pages/admin/AdminMedia.tsx:157-158 | With a second marker, `prefix + marker + a + marker + rest` gives a: the text after the first marker and before the second, when no marker starts inside a. |
| Uploads.NoMarkerWithOneSlash | src/pages/admin/AdminMedia.tsx:157-158 | A string with at most one '/' cannot contain the two-slash marker. |
| Crud.ChooseWrite | src/pages/admin/AdminMixtapes.tsx:108-120 | The write is an update of the edited id exactly when `editingId` is truthy, and an insert otherwise. The payload is kept. |
| Crud.Removed | src/pages/admin/AdminBookings.tsx:61 | The row with the id is gone and every other row is kept. |
| AdminEvents.FormOf | src/pages/admin/AdminEvents.tsx:118-128 | Editing copies the six fields, with null as "". |
| AdminEvents.Payload | src/pages/admin/AdminEvents.tsx:82-92 | The payload equals the form except `image_url`, which is replaced exactly when an image was uploaded. |
| AdminEvents.EditThenSave | src/pages/admin/AdminEvents.tsx:89-128 | Editing a row and saving it unchanged updates that row with its own fields. |
| AdminEvents.EventsScreen.constructor | src/pages/admin/AdminEvents.tsx:26-37 | The initial state is closed, nothing edited, an empty form, no image, not busy. |
| AdminEvents.EventsScreen.ChooseImage | src/pages/admin/AdminEvents.tsx:222 | Only the chosen image changes. |
| AdminEvents.EventsScreen.HandleEdit | src/pages/admin/AdminEvents.tsx:118-129 | The row is loaded into the form, its id is being edited, and the dialog opens. |
| AdminEvents.EventsScreen.ResetForm | src/pages/admin/AdminEvents.tsx:144-155 | Nothing is being edited, the six fields are empty and no image is chosen. |
| AdminEvents.EventsScreen.HandleSubmit | src/pages/admin/AdminEvents.tsx:77-116 | A chosen image is uploaded to `event-images/<name>.<ext>`, and a failed upload writes nothing. The write is the insert or the update of the payload. On success the dialog closes and the form resets. On any failure the form, `editingId`, the image and the dialog are unchanged. The screen is not busy afterwards. |
| AdminMixtapes.DurationOf | src/pages/admin/AdminMixtapes.tsx:104 | An empty duration is null. Otherwise it is `parseInt` of the text, or NaN. |
| AdminMixtapes.BuildPayload | src/pages/admin/AdminMixtapes.tsx:100-106 | The payload keeps the form's fields and takes the given file URLs, the parsed duration, and the tracklist (null when empty, else parsed). It is absent exactly when a non-empty tracklist does not parse. |
| AdminMixtapes.FormOf | src/pages/admin/AdminMixtapes.tsx:132-146 | Editing maps null text to "", a null `featured` to false, a duration to its decimal text, and a tracklist to its JSON text. |
| AdminMixtapes.EditThenSubmit | src/pages/admin/AdminMixtapes.tsx:100-143 | Editing a row and submitting it unchanged gives back its duration, tracklist and `featured` flag, with null genre and vibe as "". |
| AdminMixtapes.SlotUrl | src/pages/admin/AdminMixtapes.tsx:87-98 | A slot's URL is the form's text unless a file was chosen. In that case it is the public URL of the uploaded file. |
| AdminMixtapes.SlotPaths | src/pages/admin/AdminMixtapes.tsx:62-65 | A slot is uploaded to `<folder>/<name>.<ext>` exactly when a file was chosen for it. |
| AdminMixtapes.UploadSlot | src/pages/admin/AdminMixtapes.tsx:62-80 | One upload step is attempted exactly for a chosen file and fails exactly on a storage error. The path is stored exactly when the step does not fail, and then the slot's URL is as SlotUrl says. |
| AdminMixtapes.MixtapesScreen.constructor | src/pages/admin/AdminMixtapes.tsx:27-42 | The initial state is closed, nothing edited, an empty form, no files, not busy. |
| AdminMixtapes.MixtapesScreen.ChooseFiles | src/pages/admin/AdminMixtapes.tsx:241-253 | Only the chosen files change. |
| AdminMixtapes.MixtapesScreen.HandleEdit | src/pages/admin/AdminMixtapes.tsx:132-146 | The row is loaded into the form, its id is being edited, and the dialog opens. The files are kept. |
| AdminMixtapes.MixtapesScreen.ResetForm | src/pages/admin/AdminMixtapes.tsx:161-176 | Nothing is being edited, every text is empty, `featured` is false, and both files are null. |
| AdminMixtapes.MixtapesScreen.UploadChosenFiles | src/pages/admin/AdminMixtapes.tsx:87-98 | The cover is uploaded to `mixtape-covers`, then the audio to `mixtape-audio`. A failed upload stops the phase. The stored paths are the attempted ones without the last when an upload failed, and all of them otherwise. When nothing failed, each URL is the uploaded one or the form's text. |
| AdminMixtapes.MixtapesScreen.HandleSubmit | src/pages/admin/AdminMixtapes.tsx:82-130 | `uploads` holds the paths whose upload was attempted: the cover's (when chosen), then the audio's (when chosen and the cover did not fail); when an upload failed, it is the last of them. `stored` holds the paths that reached storage: a slot's path when it was chosen and neither it nor an earlier upload failed. When a write is made, every attempted upload was stored. The write is the insert or the update of the payload, and there is none after a failed upload or an unparsable tracklist. On success the dialog closes and the form resets. On failure the form, `editingId`, the files and the dialog are unchanged. The screen is not busy afterwards. |
| AdminPortfolio.FormOf | src/pages/admin/AdminPortfolio.tsx:93-104 | Editing defaults an empty type to "photo" and null fields to "". |
| AdminPortfolio.FormKindIsOffered | src/pages/admin/AdminPortfolio.tsx:159-170 | A loaded type is one of photo, video and flyer, and an offered type is kept. |
| AdminPortfolio.EditThenSave | src/pages/admin/AdminPortfolio.tsx:65-104 | Saving an edited row updates that row. With no nulls, the form is the row's own fields. |
| AdminPortfolio.PortfolioScreen.constructor | src/pages/admin/AdminPortfolio.tsx:33-42 | The initial form has type "photo" and every other field empty. |
| AdminPortfolio.PortfolioScreen.HandleEdit | src/pages/admin/AdminPortfolio.tsx:93-104 | The row is loaded into the form, its id is being edited, and the dialog opens. |
| AdminPortfolio.PortfolioScreen.ResetForm | src/pages/admin/AdminPortfolio.tsx:119-129 | The form returns to its initial state and nothing is being edited. |
| AdminPortfolio.PortfolioScreen.HandleSubmit | src/pages/admin/AdminPortfolio.tsx:62-91 | The form, verbatim, updates the edited item or is inserted. On success the dialog closes and the form resets. On failure nothing changes. |
| AdminPosts.PayloadOf | src/pages/admin/AdminPosts.tsx:60-63 | The payload is the form plus `published_at`, which is now exactly when `published` and null otherwise. |
| AdminPosts.RowOf | src/pages/admin/AdminPosts.tsx:65-80 | The written row carries the payload's fields and its `published_at`. |
| AdminPosts.SubmittedRowConsistent | src/pages/admin/AdminPosts.tsx:60-63 | A submitted row has a publication time exactly when it is published. |
| AdminPosts.FormOf | src/pages/admin/AdminPosts.tsx:93-104 | Editing maps null text to "" and a null `published` to false. |
| AdminPosts.ResaveRestamps | src/pages/admin/AdminPosts.tsx:60-63 | Re-saving a published post stamps it with the time of the save. An unpublished one gets no time. |
| AdminPosts.Toggled | src/pages/admin/AdminPosts.tsx:119-126 | The flag becomes the negation of the shown post's flag, and `published_at` is now exactly when the new flag is true. No other field changes, and the row is consistent. |
| AdminPosts.ToggleTwice | src/pages/admin/AdminPosts.tsx:119-126 | Toggling twice restores whether the post is published, and leaves its other fields as they were. |
| AdminPosts.AfterWrite | src/pages/admin/AdminPosts.tsx:65-90 | An insert adds the row under the new id. An update replaces the edited row if it exists. Every other row is unchanged. |
| AdminPosts.AfterWriteConsistent | src/pages/admin/AdminPosts.tsx:57-90 | A successful submit keeps every row consistent. |
| AdminPosts.PostsScreen.constructor | src/pages/admin/AdminPosts.tsx:25-37 | The initial state is closed, nothing edited, an empty unpublished form. |
| AdminPosts.PostsScreen.HandleEdit | src/pages/admin/AdminPosts.tsx:93-104 | The post is loaded into the form, its id is being edited, and the dialog opens. |
| AdminPosts.PostsScreen.ResetForm | src/pages/admin/AdminPosts.tsx:136-146 | The form is empty and unpublished, and nothing is being edited. |
| AdminPosts.PostsScreen.HandleSubmit | src/pages/admin/AdminPosts.tsx:57-91 | The write is the insert or the update of the payload. On success the table holds the written row and the form resets. On failure nothing changes. Consistency of every row is preserved. |
| AdminPosts.PostsScreen.TogglePublish | src/pages/admin/AdminPosts.tsx:119-134 | On success only the row with that id is toggled. On failure the table is unchanged. Consistency is preserved. |
| AdminPosts.PostsScreen.HandleDelete | src/pages/admin/AdminPosts.tsx:106-117 | A declined confirmation or a failed delete changes nothing. Otherwise exactly that row is removed. |
| AdminMedia.UploadCategories | src/pages/admin/AdminMedia.tsx:51-59 | The upload choices are the filter values without "all". They include "other". |
| AdminMedia.Filter | src/pages/admin/AdminMedia.tsx:61-77 | The listing holds exactly the items of the selected category, or all of them for "all". |
| AdminMedia.FilterAppend | src/pages/admin/AdminMedia.tsx:61-77 | Filtering distributes over concatenation, so the listed order is kept. |
| AdminMedia.CanUpload | src/pages/admin/AdminMedia.tsx:256 | The upload button is enabled exactly when a file is chosen, the title is not empty and no upload is pending. `MediaScreen.Upload` states that an enabled upload without errors inserts a titled row. |
| AdminMedia.MediaPath | src/pages/admin/AdminMedia.tsx:83-85 | The object path `<category>/<Date.now()>.<ext>` starts with the category and a '/', and keeps the chosen file's extension. |
| AdminMedia.StoredAltText | src/pages/admin/AdminMedia.tsx:104 | An empty alt text is stored as null, and any other is kept. |
| AdminMedia.UploadedRow | src/pages/admin/AdminMedia.tsx:97-105 | The inserted row records the title, the file's name, size and type, the category, the public URL and the stored alt text. |
| AdminMedia.Edited | src/pages/admin/AdminMedia.tsx:129-136 | An edit writes only the title, the category and the alt text. |
| AdminMedia.OneSlash | src/pages/admin/AdminMedia.tsx:84-85 | In `category/digits.ext`, with no '/' in the category or the extension, the only '/' follows the category. |
| AdminMedia.MediaPathOneSlash | src/pages/admin/AdminMedia.tsx:83-85 | An upload path has exactly one '/', when the category and the file name have none. |
| AdminMedia.DeleteFindsUploadedObject | src/pages/admin/AdminMedia.tsx:83-158 | Deleting an uploaded image finds exactly the object path it was stored under. |
| AdminMedia.UploadCategoriesHaveNoSlash | src/pages/admin/AdminMedia.tsx:51-59 | The offered categories contain no '/'. |
| AdminMedia.MediaScreen.constructor | src/pages/admin/AdminMedia.tsx:40-49 | The initial state is "all" selected, no file, an empty upload form with category "other", no draft, and both dialogs closed. |
| AdminMedia.MediaScreen.Upload | src/pages/admin/AdminMedia.tsx:79-123 | Without a file nothing happens. Otherwise the object path is computed. If both steps succeed, the row is inserted, the dialog closes and the upload form resets. Otherwise the table and the form are unchanged. Started from the enabled button with no error, it inserts a row with a non-empty title. |
| AdminMedia.MediaScreen.StartEdit | src/pages/admin/AdminMedia.tsx:307-310 | The item becomes the draft and the edit dialog opens. |
| AdminMedia.MediaScreen.EditTitle | src/pages/admin/AdminMedia.tsx:344-349 | Only the draft's title takes the input. A null alt text stays null. Without a draft nothing changes. |
| AdminMedia.MediaScreen.EditCategory | src/pages/admin/AdminMedia.tsx:356-358 | Only the draft's category takes the selected value. Without a draft nothing changes. |
| AdminMedia.MediaScreen.EditAltText | src/pages/admin/AdminMedia.tsx:376-381 | Only the draft's alt text takes the typed text. An emptied box gives "", not null. Without a draft nothing changes. |
| AdminMedia.MediaScreen.Update | src/pages/admin/AdminMedia.tsx:125-153 | Only the draft row's title, category and alt text are written, and no other row changes. Without a draft nothing is written, yet the dialog closes. On failure nothing changes. |
| AdminMedia.MediaScreen.Delete | src/pages/admin/AdminMedia.tsx:155-176 | After a confirmation the object at the URL's storage path is removed, then the row. A storage failure keeps the row. |
| AdminBookings.BadgeVariant | src/pages/admin/AdminBookings.tsx:71-79 | pending→secondary, confirmed→default, cancelled→destructive, completed→outline, and any other status or null→secondary. |
| AdminBookings.BadgesDistinguishStatuses | src/pages/admin/AdminBookings.tsx:71-79 | The four offered statuses get four different badges. |
| AdminBookings.BadgeNamesStatus | src/pages/admin/AdminBookings.tsx:71-79 | The default, destructive and outline badges each name exactly one status. |
| AdminBookings.WithStatus | src/pages/admin/AdminBookings.tsx:44-48 | Only the `status` of the row with that id changes. Every other row and field is unchanged. |
| AdminBookings.WithStatusOverrides | src/pages/admin/AdminBookings.tsx:44-48 | A later status write overrides an earlier one. |
| AdminBookings.BookingsScreen.constructor | src/pages/admin/AdminBookings.tsx:23 | The screen holds the given table. |
| AdminBookings.BookingsScreen.UpdateStatus | src/pages/admin/AdminBookings.tsx:44-56 | On success the table is WithStatus of the old one and the list reloads. On failure it is unchanged. |
| AdminBookings.BookingsScreen.DeleteBooking | src/pages/admin/AdminBookings.tsx:58-69 | A declined confirmation sends nothing. Otherwise exactly that booking is removed, unless the delete fails. |
| AdminSubscribers.Fields | src/pages/admin/AdminSubscribers.tsx:53-57 | A subscriber's fields are the email, the source (null as "") and the locale date. |
| AdminSubscribers.Line | src/pages/admin/AdminSubscribers.tsx:59 | One subscriber's line is its fields joined by commas, with no quoting. `LineFields` and `CommaInEmailBreaksLine` state what that gives back. |
| AdminSubscribers.Lines | src/pages/admin/AdminSubscribers.tsx:51-59 | The lines are the header, then one line per subscriber in list order: n + 1 lines. |
| AdminSubscribers.Csv | src/pages/admin/AdminSubscribers.tsx:51-60 | The export is the lines joined by newlines. `CsvStartsWithHeader`, `CsvAppend` and `CsvLines` state its properties. |
| AdminSubscribers.CsvOfNone | src/pages/admin/AdminSubscribers.tsx:51-60 | With no subscribers the export is the header line alone, with no trailing newline. |
| AdminSubscribers.CsvAppend | src/pages/admin/AdminSubscribers.tsx:51-60 | One more subscriber appends "\n" and that subscriber's line. |
| AdminSubscribers.HeaderLineText | src/pages/admin/AdminSubscribers.tsx:52 | The header row, the three column names joined by commas, is exactly `Email,Source,Subscribed At`. |
| AdminSubscribers.CsvStartsWithHeader | src/pages/admin/AdminSubscribers.tsx:52 | The export starts with `Email,Source,Subscribed At`. |
| AdminSubscribers.CsvLines | src/pages/admin/AdminSubscribers.tsx:51-60 | When no field holds a newline, splitting at newlines gives the header and each subscriber's line, n + 1 in all. |
| AdminSubscribers.LineFields | src/pages/admin/AdminSubscribers.tsx:59 | When no field holds a comma, splitting a line at commas gives its three fields back. |
| AdminSubscribers.CommaInEmailBreaksLine | src/pages/admin/AdminSubscribers.tsx:53-59 | Fields are not quoted, so an email holding a comma is not the line's first field. |
| AdminSubscribers.SubscribersScreen.constructor | src/pages/admin/AdminSubscribers.tsx:16 | The screen holds the given subscribers. |
| AdminSubscribers.SubscribersScreen.DeleteSubscriber | src/pages/admin/AdminSubscribers.tsx:37-48 | A declined confirmation leaves the subscribers unchanged. Otherwise exactly that one is removed, unless the delete fails. |
| AdminDashboard.CountOrZero | src/pages/admin/AdminDashboard.tsx:33-37 | A missing count is 0, and a present one is kept. |
| AdminDashboard.Plays | src/pages/admin/AdminDashboard.tsx:30 | A null play count counts as 0. |
| AdminDashboard.SumPlays | src/pages/admin/AdminDashboard.tsx:30 | The `reduce` from 0, adding each play count or 0, left to right. `SumPlaysAppend`, `SumPlaysSwap` and `SumPlaysBounds` state its properties. |
| AdminDashboard.TotalPlays | src/pages/admin/AdminDashboard.tsx:30 | Absent data gives 0. Otherwise the result is the fold over the rows. |
| AdminDashboard.SumPlaysAppend | src/pages/admin/AdminDashboard.tsx:30 | The fold over two lists is the sum of the folds, so a row with count p adds exactly p. |
| AdminDashboard.SumPlaysSwap | src/pages/admin/AdminDashboard.tsx:30 | The order of the rows does not change the total. |
| AdminDashboard.SumPlaysOfNulls | src/pages/admin/AdminDashboard.tsx:30 | Rows whose counts are all null or 0 total 0. |
| AdminDashboard.SumPlaysBounds | src/pages/admin/AdminDashboard.tsx:30 | With no negative count, the total is non-negative and at least every single count. |
| AdminDashboard.LoadStats | src/pages/admin/AdminDashboard.tsx:20-40 | Each figure is its count or 0, and the total is TotalPlays. |
| AdminDashboard.AllAbsentIsInitial | src/pages/admin/AdminDashboard.tsx:7-39 | When every query returns nothing, the figures equal the initial all-zero state. |

## Left out

- User interface: rendering, toasts, styling, dialogs' `onOpenChange`, the mobile menu, and `loadX` list refreshes. A returned `reload` flag stands for the refresh.
- The database and the storage service are not modelled as systems. Their answers (errors, public URLs, assigned ids) are parameters. Server-side ordering (`order(...)`) and the listing queries are left out. Only the media category filter is modelled, as a function on the listed items.
- Fresh ids: inserts take a `newId` that is not in the table, standing for the id the database generates.
- `handleDelete` of the mixtapes, events and portfolio screens is left out. It is the same confirmed `delete().eq("id", id)` as the modelled deletes of posts, bookings, subscribers and media, which all use `Crud.Removed`.
- Uploads that succeed before a later step fails leave an object in storage. The mixtape screen returns both the paths it attempted and the paths that were stored, but the model does not track the bucket's contents as state.
- `JSON.parse` / `JSON.stringify` of the mixtape tracklist are parameters.
- AdminMixtapes.FormOf: a tracklist that is present but falsy (`0`, `false`, `""`) prints as "" in the source; the model always prints a present tracklist.
- Text.ParseInt: only an optional sign followed by decimal digits is read. Leading whitespace and `0x` hexadecimal prefixes are not read (`parseInt("0x1A")` is 26, the model gives 0). Reading stops at the first non-digit, so "1e3" and "1.5" give 1, as in JavaScript.
- Durations and play counts are integers. Floating-point values of JavaScript numbers are not modelled.
- AdminBookings.BadgeVariant: a status equal to an `Object.prototype` property name (such as "constructor") yields a non-string variant in the source. The model treats every unlisted string as "secondary".
- Dates: `toLocaleDateString`, `new Date().toISOString()` and `Date.now()` are parameters. `new Date(null)` versus `new Date(undefined)` in the CSV export is left to the locale-date parameter.
- AdminLogin.OutcomeOf: the client library's mapping of a non-2xx response to an error is stated, not derived. The library is not part of this model.
- The session check of `supabase.auth.getSession` and the `user_roles` query on the login page are foreign calls and are left out.
- Concurrency: `Promise.all` on the dashboard, react-query caching and invalidation, and interleavings of handlers.
- The CSV download (Blob, object URL, link click) is left out; the model stops at the CSV text.
- The `confirm()` dialog is a boolean parameter.
- `CanUpload` (the upload button's enablement) is a predicate. It does not gate `MediaScreen.Upload`, because the source's mutation does not re-check the title either.
- The static public components (contact, footer, navigation, cards, about, events, index page) and the random waveform heights of the mixtape card are display only.
