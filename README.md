# Posts admin dashboard — a Dafny model

This project models the logic of a small admin dashboard for "posts"
(listings). It has two halves.

The browser client is `admin/script.js`. It holds three module-level
variables: the signed-in user, the cached post list and the id of the post
being edited or deleted. Its handlers open and close the edit and delete
modals, send create, update and delete requests, reload the list, and count
the posts by status. It also picks a badge class and a flag glyph for each
row.

The Flask backend is `admin/app.py`. It checks uploaded image names, makes a
storage name for each upload, and keeps a `posts` table and an image bucket
in step across create, update and delete.

Modules:

- `Wrappers` (wrappers.dfy): `Option`.
- `Text` (text.dfy): ASCII lower-casing, the text after the last separator
  (Python's `rsplit(c, 1)[1]` and `split(c)[-1]`), and decimal rendering of
  integers.
- `ClientPosts` (client_posts.dfy): the post record and the pure client logic:
  - `updateStats` as a loop proved against a left-to-right count;
  - `getStatusClass` and `getCountryFlag`;
  - the cached-post lookup.
- `ClientDashboard` (client_dashboard.dfy): the client's state as the class
  `Dashboard`, whose methods are the handlers. A handler that awaits the
  identity service or the backend takes the answer as a parameter.
  `HandlePostSubmit` and `ConfirmDelete` also return the request they would
  send. `LoadPosts`, `CheckAuthState`, `HandleLogin` and `HandleLogout`
  return nothing: the session lookup, the sign-in, the sign-out and the
  reload's GET appear only through the answers they are given.
- `Uploads` (backend_files.dfy): `allowed_file`, the upload name, and the
  storage name recovered from a public URL.
- `PostsApi` (backend_posts.dfy): the class `PostsTable`. It holds a map
  from integer id to row, the next id and the set of stored objects.
  `create_post`, `update_post` and `delete_post` are its methods. What the
  database and the storage service answer is a parameter.

The table keeps an invariant, `PostsTable.Valid`:

- the bucket's public URL prefix ends in '/', so the text after the last
  '/' of an image's URL is the object name whenever that name holds no '/';
- every row id is below the next id;
- every image a row refers to is stored in the bucket;
- no two rows refer to the same object.

Every corrected handler preserves it; the update as written
(`PostsTable.UpdatePostAsWritten`) does not, as the Findings show.
`create_post` additionally keeps `post_id`s unique when they were unique
before.

Some behaviour of the code worth knowing:

- Statuses are free-form strings. A status other than available, on hold or
  sold (up to case) counts only in the total and is drawn as available.
- A sign-out event from the identity service only shows the login view.
- A mutation is followed by a reload. A failed reload leaves the old cache
  in place (`Dashboard.LoadPosts`).
- The cache is cleared only when `signOut` does not throw
  (`Dashboard.HandleLogout`).

## Model

| member | source | states |
|---|---|---|
| Text.Lower | admin/script.js:266 | lower-casing keeps the length and maps each character through the ASCII case mapping |
| Text.LowerIsIgnoringCase | admin/script.js:266-275 | lower-casing `s` yields the lower-case word `t` if and only if `s` equals `t` up to case |
| Text.LowerRespectsCase | admin/script.js:266 | strings equal up to case lower-case to the same string |
| Text.AfterLast | admin/app.py:78 | the result is the longest suffix free of the separator: it is a suffix, holds no separator, and is preceded by one when shorter than the input |
| Text.AfterLastAbsent | admin/app.py:39 | with no separator in the string, the whole string is returned |
| Text.AfterLastOfJoin | admin/app.py:45 | for `s + [c] + t` with no `c` in `t`, the text after the last `c` is exactly `t` (the same helper serves `rsplit('.', 1)[1]` at lines 39 and 45 and `split('/')[-1]` at line 78) |
| ClientPosts.StatusOf | admin/script.js:266-276 | a status classed available, on hold or sold equals that word up to case |
| ClientPosts.StatusMatchingIgnoresCase | admin/script.js:266-275 | a status is classed available, on hold or sold if and only if it equals that word up to case |
| ClientPosts.StatusOfIgnoresCase | admin/script.js:266 | two statuses that differ only in case are classified alike |
| ClientPosts.AvailableSpellings | admin/script.js:266-269 | "Available", "AVAILABLE" and "available" count as available |
| ClientPosts.OnHoldAndSoldSpellings | admin/script.js:270-275 | "On Hold" counts as on hold and "SOLD" as sold |
| ClientPosts.UnrecognisedSpellings | admin/script.js:266-276 | "Pending" and "onhold" match none of the three cases |
| ClientPosts.Count | admin/script.js:264-278 | the number of posts of one kind never exceeds the number of posts |
| ClientPosts.Tally | admin/script.js:264-277 | one reduce step adds 1 to the total and to at most one of the three counters; an unrecognised status adds to the total only |
| ClientPosts.CountStats | admin/script.js:264-278 | after the whole reduce the total is the number of posts and available + on hold + sold is at most the total |
| ClientPosts.UpdateStats | admin/script.js:263-284 | the loop that bumps the accumulator field by field ends with exactly the counters of the left-to-right reduce |
| ClientPosts.CountSnoc | admin/script.js:264-277 | counting a post appended at the end adds one for its own kind only |
| ClientPosts.CountStatsCountsKinds | admin/script.js:264-278 | each counter of the reduce equals the number of posts of its kind |
| ClientPosts.KindsPartition | admin/script.js:266-276 | the four kinds partition the posts: their counts add up to the number of posts |
| ClientPosts.StatsPartition | admin/script.js:264-278 | available + on hold + sold + unrecognised equals the total, which equals the number of posts |
| ClientPosts.CountStatsAppend | admin/script.js:264-278 | the counters of a concatenation are the field-wise sums of the counters of its parts |
| ClientPosts.CountStatsPermutation | admin/script.js:264-278 | the counters do not depend on the order in which the posts arrive |
| ClientPosts.OneAvailablePost | admin/script.js:264-278 | one post with status "Available" gives total 1, available 1, on hold 0, sold 0 |
| ClientPosts.StatusClass | admin/script.js:436-446 | the class is one of three; it is the on-hold or sold class if and only if the status is on hold or sold up to case; otherwise it is the available class |
| ClientPosts.UnrecognisedDrawnAsAvailable | admin/script.js:444-445 | an unrecognised status is drawn with the available class but is counted only in the total |
| ClientPosts.CountryFlag | admin/script.js:449-458 | the result is a flag rather than the globe if and only if the code is one of US, PK, IN, UK, CA (lookup restricted to the table's own entries) |
| ClientPosts.CountryFlagsAreRegionFlags | admin/script.js:450-456 | each listed code maps to its region's regional-indicator pair ("UK" to GB), so the five flags are pairwise distinct |
| ClientPosts.CountryFlagIsCaseSensitive | admin/script.js:457 | a lower-case code such as "us" gets the globe |
| ClientPosts.CountryFlagAsWritten | admin/script.js:457 | the lookup as written yields an inherited object member if and only if the code is not listed and is an `Object.prototype` member name |
| ClientPosts.CountryFlagAsWrittenAgrees | admin/script.js:449-458 | for every other code the lookup as written agrees with the corrected one |
| ClientPosts.CountryFlagAsWrittenToString | admin/script.js:457 | the code "toString" yields a function as written, the globe when corrected |
| ClientDashboard.Truthy | admin/script.js:344 | `editingPostId` is falsy exactly when it is `null` or 0, the only falsy values an id takes |
| ClientDashboard.PostPath | admin/script.js:345 | `/api/posts/${id}` starts with "/api/posts/" and holds a '-' exactly when the id is negative |
| ClientDashboard.FormOf | admin/script.js:295-299 | editing a cached post fills the form so that its four data fields carry that post's post_id, platform, country and status in order |
| ClientPosts.FindPost | admin/script.js:292 | `allPosts.find`: none if and only if no cached post has the id; otherwise the first post with that id |
| ClientDashboard.PostPathNamesId | admin/script.js:345 | `/api/posts/${id}` begins with "/api/posts/" and its last segment is the id's decimal text |
| ClientDashboard.DataFields | admin/script.js:330-335 | the form data holds four text fields |
| ClientDashboard.FormFields | admin/script.js:343-361 | the multipart body has exactly one field for the id when the edited id is truthy, the four data fields, and one field for a selected image |
| ClientDashboard.FormFieldsLayout | admin/script.js:343-361 | the `id` field comes first when the edited id is truthy, the four data fields follow in order, and the image comes last when one is selected |
| ClientDashboard.FormFieldsIdIff | admin/script.js:344-347 | the body has an `id` field if and only if the edited id is truthy |
| ClientDashboard.FormFieldsImageIff | admin/script.js:359-361 | the body has a file field if and only if an image is selected |
| ClientDashboard.SubmitRequest | admin/script.js:343-351 | PUT to `/api/posts/{id}` if and only if the edited id is truthy; POST to `/api/posts` otherwise |
| ClientDashboard.DeleteRequest | admin/script.js:402-415 | a request is sent if and only if the edited id is truthy, and it is a DELETE of `/api/posts/{id}` without a body |
| ClientDashboard.FailureMessage | admin/script.js:373 | the thrown message of a refusal is the backend's `error` or the fallback, and never empty when the fallback is not; a rejected fetch keeps its own message |
| ClientDashboard.LoadErrorText | admin/script.js:187-201 | the banner starts with "Failed to load posts: ", followed by "HTTP error! status: " and the status for a response that is not ok, or by the rejection's message |
| ClientDashboard.SaveAlert | admin/script.js:381 | the save alert starts with "Failed to save post: " |
| ClientDashboard.DeleteAlert | admin/script.js:427 | the delete alert starts with "Failed to delete post: " |
| ClientDashboard.SaveAlertReason | admin/script.js:371-381 | after its prefix the save alert gives the backend's non-empty `error`, and "Failed to save post" when there is none |
| ClientDashboard.DeleteAlertReason | admin/script.js:417-427 | after its prefix the delete alert gives the backend's non-empty `error`, and "Failed to delete post" when there is none |
| ClientDashboard.Reload | admin/script.js:177-204 | an ok response replaces the cache with the fetched posts, sets the total to their number and clears the error; any failure keeps the cache and counters and shows an error |
| ClientDashboard.ReloadReplacesWholesale | admin/script.js:187-192 | after a successful load nothing of the previous cache remains, and the counters are those of the fetched posts |
| ClientDashboard.Dashboard.constructor | admin/script.js:11-13 | at load nobody is signed in, nothing is cached and no post is edited |
| ClientDashboard.Dashboard.ShowLogin | admin/script.js:151-157 | the login view with its error hidden; modals and cache untouched |
| ClientDashboard.Dashboard.LoadPosts | admin/script.js:177-204 | the cache moves as `Reload` says: replaced and recounted on success, kept on failure; session and modals untouched |
| ClientDashboard.Dashboard.CheckAuthState | admin/script.js:52-67 | a session signs the user in, shows the dashboard and reloads; no session or a failed lookup shows the login view and changes nothing else |
| ClientDashboard.Dashboard.HandleLogin | admin/script.js:106-136 | a sign-in shows the dashboard for the user and reloads; a failure shows its message and changes nothing else |
| ClientDashboard.Dashboard.HandleLogout | admin/script.js:139-148 | after signing out nobody is signed in, the cache is empty and the login view shows; if signing out throws nothing changes |
| ClientDashboard.Dashboard.OpenPostModal | admin/script.js:287-316 | the edited id becomes the argument; a truthy id fills the form from the cached post when one is found; a falsy id resets the form |
| ClientDashboard.Dashboard.ClosePostModal | admin/script.js:319-323 | the modal closes, no post is edited and the form is reset |
| ClientDashboard.Dashboard.HandlePostSubmit | admin/script.js:326-386 | sends `SubmitRequest` for the edited id; acceptance closes the modal and reloads; a refusal raises `SaveAlert` and leaves modal and cache as they were |
| ClientDashboard.Dashboard.OpenDeleteModal | admin/script.js:389-393 | the target becomes the given id and the confirmation opens; nothing is sent |
| ClientDashboard.Dashboard.CloseDeleteModal | admin/script.js:396-399 | the confirmation closes and no post is targeted |
| ClientDashboard.Dashboard.ConfirmDelete | admin/script.js:402-433 | with a falsy target nothing is sent and nothing changes; otherwise sends `DeleteRequest`; acceptance closes the modal and reloads; a refusal raises `DeleteAlert` and changes nothing |
| ClientDashboard.CancelledDeleteSendsNothing | admin/script.js:396-403 | from any valid state, opening then cancelling the confirmation means a later confirm sends no request and keeps the cache |
| ClientDashboard.EditingPostZeroCreates | admin/script.js:344 | from any valid state, editing the post whose id is 0 submits a POST to `/api/posts` with no `id` field, because 0 is falsy |
| Uploads.AllowedFile | admin/app.py:36-39 | an allowed name has a '.', and the text after its last '.' is three or four characters long |
| Uploads.AllowedFileIff | admin/app.py:36-39 | a name is allowed if and only if some '.' is followed by a dot-free text whose lower-case form is png, jpg, jpeg, gif or webp |
| Uploads.LastDot | admin/app.py:39 | the text after the last '.' is what follows the last '.' position |
| Uploads.AllowedFileAccepts | admin/app.py:36-39 | "a.PNG" and ".png" are allowed |
| Uploads.AllowedFileRejectsNoDot | admin/app.py:38 | "png" is refused |
| Uploads.AllowedFileRejectsLastExtension | admin/app.py:39 | "a.tar.gz" and "photo.png.exe" are refused: only the last extension counts |
| Uploads.Extension | admin/app.py:45 | the lower-cased extension holds no '.' |
| Uploads.SafeSegment | admin/app.py:46 | corrected: the made-safe post id has the same length and no '/', and equals the id when it had none |
| Uploads.UploadName | admin/app.py:45-46 | the corrected name is the made-safe post id, '_', the token, '.', and the extension: it starts with the made-safe id and '_' and has their total length |
| Uploads.UploadNameAsWritten | admin/app.py:45-46 | the name as written starts with the post id unchanged and '_' and has the same total length |
| Uploads.UploadNameAgreesWithoutSlash | admin/app.py:46 | for a post id without '/' the generated name is exactly `{post_id}_{hex}.{ext}` as the code builds it |
| Uploads.UploadNameKeepsExtension | admin/app.py:45-46 | the generated name starts with the made-safe post id and "_", its extension is the upload's lower-cased extension, and it is itself an allowed name |
| Uploads.HexTokenIsPlain | admin/app.py:46 | a uuid hex token holds neither '/' nor '.' |
| Uploads.AllowedExtensionIsPlain | admin/app.py:34 | no allowed extension holds '/' |
| Uploads.UploadNameIsOneSegment | admin/app.py:45-46 | the generated name is non-empty and holds no '/' |
| Uploads.StorageFilename | admin/app.py:74-78 | no name if and only if the URL is missing or empty; otherwise a '/'-free suffix of the URL that is preceded by '/' when shorter than it |
| Uploads.StorageFilenameRoundTrip | admin/app.py:41-78 | corrected: deleting by the public URL of an uploaded image targets the very name it was uploaded under |
| Uploads.UploadNameAsWrittenLosesObject | admin/app.py:41-78 | as written, post id "a/b" uploads under "a/b_{hex}.png" but deletion targets "b_{hex}.png", another object |
| Uploads.AsWrittenNameOfSlashedId | admin/app.py:45-46 | the as-written name for post "a/b" and file "x.png" is "a/" followed by a '/'-free tail |
| Uploads.ExtensionOfPng | admin/app.py:45 | the extension of "x.png" is "png" |
| PostsApi.MissingRequired | admin/app.py:114 | a request is complete if and only if post_id, platform and country are all sent and none is empty |
| PostsApi.UploadStep | admin/app.py:52-61 | an upload succeeds if and only if the call succeeds and the name is not yet stored; a failed call keeps its own error |
| PostsApi.HasPostId | admin/app.py:118-119 | the duplicate lookup finds a record exactly when the post_id is among the post_ids of the table's rows |
| PostsApi.ValidImage | admin/app.py:126 | an upload is used exactly when a file is sent and `allowed_file` accepts its name; the `filename != ''` test adds nothing, since an allowed name holds a '.' |
| PostsApi.StatusOrDefault | admin/app.py:111 | the status is the sent one when the field is present (even if empty), and "Available" only when it is absent |
| PostsApi.ImageObjectIsStorageFilename | admin/app.py:74-78 | a row's image object is the name deletion computes from its URL |
| PostsApi.UpdatedFields | admin/app.py:169-175 | each of post_id, platform, country and status is the sent value when present and the existing one otherwise; the image stays; an empty form changes nothing |
| PostsApi.Removed | admin/app.py:71-78 | deletion removes at most one object, and one exactly when the URL is set and non-empty |
| PostsApi.NewObjectUnreferenced | admin/app.py:63-64 | an object that was not stored is referenced by no row |
| PostsApi.ImagesKeptWhenObjectAdded | admin/app.py:54-64 | storing one more object keeps every referenced image stored |
| PostsApi.ImagesKeptWhenObjectDropped | admin/app.py:145-148 | removing an object no row refers to keeps every referenced image stored |
| PostsApi.ImagesKeptWhenImageKept | admin/app.py:200 | rewriting a row with the image it had keeps images stored and unshared |
| PostsApi.ImagesKeptWhenImageReplaced | admin/app.py:175-200 | replacing a row's image with a fresh stored object, then removing the old one, keeps images stored and unshared |
| PostsApi.ImagesStoredWhenImageReplaced | admin/app.py:175-200 | the stored half of the lemma above |
| PostsApi.ImagesKeptWhenRowAdded | admin/app.py:143 | inserting a row under a new id whose image is a fresh stored object keeps images stored and unshared |
| PostsApi.UniqueKeptWhenRowAdded | admin/app.py:117-120 | inserting a row whose post_id no row has keeps post_ids unique |
| PostsApi.ImagesKeptWhenRowRemoved | admin/app.py:223-230 | deleting a row and then its image keeps the other images stored and unshared |
| PostsApi.NewRow | admin/app.py:133-140 | the new row carries the sent post_id, platform and country, the defaulted status and no image |
| PostsApi.PublicUrlNamesObject | admin/app.py:63-64 | the public URL of a '/'-free name is set, and deleting by it removes that name |
| PostsApi.PostsTable.constructor | admin/app.py:17 | an empty table over an empty bucket |
| PostsApi.PostsTable.StoreImage | admin/app.py:41-69 | the upload is refused when it fails or the name is taken; otherwise the name is stored and its public URL returned, which names the object again when the name holds no '/' |
| PostsApi.PostsTable.DeleteImage | admin/app.py:71-86 | exactly the objects `Removed(url)` are removed |
| PostsApi.PostsTable.StoreNewImage | admin/app.py:41-69 | as `StoreImage`, keeping `Valid`, and the new object is referenced by no row |
| PostsApi.PostsTable.CreatePost | admin/app.py:104-154 | missing or empty post_id, platform or country gives 400 before the duplicate check; a duplicate post_id gives 400; both change nothing; otherwise the post is added as `Added` says; `Valid` and unique post_ids are kept |
| PostsApi.PostsTable.AddPost | admin/app.py:122-151 | a valid image is uploaded under its generated name first; otherwise the row is inserted without an image; the outcome is `Added` |
| PostsApi.PostsTable.AddWithImage | admin/app.py:124-151 | a failed upload gives 500 and changes nothing; a failed insert gives 500 and removes the new image again; otherwise the row with the image's URL is stored under the next id and the answer is 201 |
| PostsApi.PostsTable.Insert | admin/app.py:142-151 | the row goes under the next id, which advances, with answer 201; a failed insert gives 500, keeps the rows and removes the row's image |
| PostsApi.PostsTable.UpdatePost | admin/app.py:157-208 | unknown id gives 404 and changes nothing; without a valid image the fields merge as `UpdatedFields` says; with one, the new image is stored before the old is removed, and any failure leaves the table as it was |
| PostsApi.PostsTable.Rewrite | admin/app.py:189-205 | the merged row replaces exactly that row with answer 200; a failed write gives 500 and changes nothing |
| PostsApi.PostsTable.ReplaceImage | admin/app.py:174-205 | corrected: upload, write, then remove the old image; a failed upload or write leaves rows and objects as they were |
| PostsApi.PostsTable.Commit | admin/app.py:199-205 | corrected: on success the row is replaced and its old image removed; on failure the new image is removed |
| PostsApi.PostsTable.UpdatePostAsWritten | admin/app.py:157-208 | as written: with a valid image the old image is removed first, the new one is uploaded under the name built from `post_id` as it is, and a failed upload or write leaves the old one removed; it needs only the bucket prefix, so it also accepts the table a previous failed upload left with a dangling image |
| PostsApi.PostsTable.ReplaceImageAsWritten | admin/app.py:174-205 | the old object is gone in every outcome; the new one is stored once the upload succeeds, even if the write fails |
| PostsApi.PostsTable.DeletePost | admin/app.py:211-235 | unknown id gives 404 and a failed delete gives 500, both changing nothing; otherwise exactly that row goes, then its image, and every other row stays |
| PostsApi.FailedUploadLeavesDanglingImage | admin/app.py:178-187 | as written, a failed upload of a new image answers 500 while the row still refers to an image that is no longer stored |
| PostsApi.RetryAfterFailedUpload | admin/app.py:178-187 | as written, after a failed upload leaves the row's image removed, the same update is still accepted and, with the upload succeeding under a free name, points the row at a stored image again |
| PostsApi.FailedUploadKeepsImage | admin/app.py:178-187 | the same request against the corrected update keeps the row's image stored |

## Left out

- Text.Lower: only ASCII letters are case-mapped. JavaScript's `toLowerCase` and Python's `lower` also map other letters. The words the code compares against are all ASCII.
- ClientPosts.CountryFlagsAreRegionFlags: the flag literals in the script file are UTF-8 flag bytes shown as MacRoman text (for instance an 8-character string for "US"); the model uses the emoji those bytes encode, the regional-indicator pairs and the globe U+1F30D. Globe-if-and-only-if-unlisted and pairwise distinctness hold for either reading.
- ClientPosts.CountryFlag: this is the corrected lookup. The code as written is `CountryFlagAsWritten`; see Findings.
- ClientPosts.UpdateStats: a post whose status is `null` makes `toLowerCase` throw. Statuses are modelled as strings, so this path is absent.
- ClientDashboard.Dashboard.HandlePostSubmit: an error body that is not JSON makes `response.json()` throw. That rejection is represented by `SendFailed` with its message, and the backend's `error` by a string.
- ClientDashboard.Dashboard.LoadPosts: if rendering throws after the cache is assigned, the code shows the error with the new cache in place. Rendering is not modelled, so this path is absent.
- Uploads.UploadName: this is the corrected name. It replaces '/' in `post_id` with '_'. The code as written is `UploadNameAsWritten`; see Findings.
- PostsApi.PostsTable.UpdatePost: this is the corrected order of image steps. The code as written is `UpdatePostAsWritten`; see Findings.
- PostsApi.PostsTable.UpdatePost: like the code, it does not re-check that a changed `post_id` is unique, so `UniquePostIds` is not claimed for updates.
- PostsApi.PostsTable.DeleteImage: a removal that the storage service refuses is only logged by the code. The model treats every removal as done.
- PostsApi.UploadStep: the storage service's answer is a parameter. The only refusal modelled for a healthy call is a name that is already taken.
- PostsApi.PostsTable.CreatePost: it names an uploaded image with the corrected `UploadName`, so for a `post_id` holding '/' it does not behave as the code does; that case is modelled by `UploadNameAsWritten` and `UploadNameAsWrittenLosesObject` only.
- PostsApi.PostsTable.AddPost: like `CreatePost`, it uses the corrected `UploadName`.
- PostsApi.PostsTable.UpdatePost: like `CreatePost`, it uses the corrected `UploadName`; `UpdatePostAsWritten` uses the name as written.
- PostsApi.PostsTable.ReplaceImage: this is the corrected order of image steps (upload, write, then remove the old image). The code as written removes the old image first and undoes nothing on failure; that is `ReplaceImageAsWritten`.
- PostsApi.PostsTable.Commit: part of the corrected order; its removal of the new image after a failed write and of the old image after a successful one is not in the code, which `ReplaceImageAsWritten` models as written.
- PostsApi.PostsTable.Insert: only the `result.error` branch of a failed insert is modelled, which removes the uploaded image. An insert that raises goes to the outer handler, which answers 500 without removing the image and leaves it stored but unreferenced. The same holds for a raising update write.
- PostsApi.PostsTable.StoreImage: the public URL of an object is assumed to be the bucket's public prefix, ending in '/', followed by the object name with nothing after it (no query string). The round trip of `StorageFilenameRoundTrip`, `PublicUrlNamesObject` and the stored-images part of `PostsTable.Valid` rest on that shape.
- PostsApi.PostsTable.CreatePost: the duplicate check assumes the lookup itself succeeds. A failing lookup, like any other exception, would give 500 with its text.
- The replies carry the row without its `created_at`/`updated_at` timestamps. Clocks are not modelled.
- The DOM is not modelled: row and table rendering (`createPostRow`, `renderPosts`), the display toggles of `showDashboard`, `showLoading` and `hideLoading`, spinner texts, `alert`, `console` and date formatting. These are presentation only.
- The Supabase client and `fetch` are foreign network clients. Their answers are parameters, and the bearer token and `API_BASE_URL` prefix are left off requests.
- `uuid.uuid4()` is randomness. The hex token is a parameter.
- Async interleaving is not modelled: each handler runs to completion. The `onAuthStateChange` subscription is also left out; it only shows the login view on sign-out.
- The backdrop-click and button listeners of `setupEventListeners` are left out. They only call the modelled close and open handlers.
- Flask routing, CORS, environment configuration, bucket creation at start-up, `get_posts` with its database-side ordering, `health_check` and the error handlers are framework or external concerns.

## Findings

| source | as written | input that shows it | evidently intended | confidence | as-written member | corrected member |
|---|---|---|---|---|---|---|
| admin/script.js:449-458 | indexing the `flags` object literal with the code also finds members inherited from `Object.prototype`, which are truthy | country code "toString" | the globe for every code outside the five listed | not executed | ClientPosts.CountryFlagAsWrittenToString | ClientPosts.CountryFlag |
| admin/app.py:46 | the upload name embeds `post_id` verbatim, so a '/' in it makes a folder, while deletion removes only the URL's last segment | post_id "a/b", file "x.png" | deleting a post's image removes the object that was uploaded | not executed | Uploads.UploadNameAsWrittenLosesObject | Uploads.StorageFilenameRoundTrip |
| admin/app.py:178-187 | the old image is deleted before the new one is uploaded, and nothing is restored when the upload or the database write fails | a post with an image, a new allowed image whose upload fails | a failed update leaves the post's image stored | not executed | PostsApi.FailedUploadLeavesDanglingImage | PostsApi.FailedUploadKeepsImage |
