# SimpleLinks backend: link list and search-engine registry

A Dafny model of the pure logic in the SimpleLinks Flask backend
(`backend/app.py`): an ordered list of link documents edited by position, a
search-engine registry kept inside a JSON configuration document, the
default used when no configuration file exists, and the extension check for
uploaded images.

Every handler in the original loads a JSON file, edits a copy and writes it
back. Here the file becomes an explicit store value passed in and returned:
`Option<seq<D>>` for the links (`None` while the file does not exist) and
`Option<Config>` for the configuration. A handler is a function from the
store and the request to a `Reply` holding the HTTP status code, the JSON
body and the store afterwards; on every error path the store is returned
unchanged, which models "no save".

Files:

- `optional.dfy` (module `Optional`): `Option`, and `Truthy` for Python
  truthiness of a string field (present and non-empty).
- `text.dfy` (module `Text`): ASCII lower-casing and case-insensitive
  name equality `FoldEq`.
- `upload.dfy` (module `Upload`): `allowed_file`.
- `links.dfy` (module `Links`): the `/links` handlers. Link documents are a
  type parameter, since the backend never looks inside them.
- `settings.dfy` (module `Settings`): the configuration document,
  `load_config` and `get_engines`.
- `registry.dfy` (module `Registry`): `add_engine`, `update_engine`,
  `remove_engine` and the `/config/engines` and `/config/active` handlers.

The model follows the code where it departs from the system's intended
design:

- `load_config` does no migration. The default document keeps the legacy
  `search.url` key and has no `engines` key, and a stored document is
  returned as stored.
- `remove_engine` never clears `search.engine`, even when the active engine
  is removed. This is `Registry.RemoveActiveLeavesDanglingName`.
- The update branch of `POST /config/engines` does not persist the update
  (see Findings).
- `remove_engine` raises `KeyError('search')` when the stored document has no
  `search` section. The route turns this into a 400 reply with the error
  text `'search'`.

## Model

| member | source | states |
|---|---|---|
| Text.Lower | backend/app.py:74 | `str.lower()` on ASCII: same length, every ASCII capital is replaced by its small letter, every other character is kept, and no ASCII capital remains |
| Text.FoldEq | backend/app.py:74 | `a.lower() == b.lower()` holds iff both names have the same length and agree position by position after lower-casing; equal names always match |
| Optional.Truthy | backend/app.py:84-85 | a string argument is falsy exactly when it is missing or the empty string |
| Upload.LastDot | backend/app.py:25 | the result is the position of a '.' with no '.' after it, and None exactly when the name has no '.' |
| Upload.Extension | backend/app.py:25 | the split yields a suffix exactly when the name has a dot; that suffix follows some '.' and contains no '.' |
| Upload.LastDotUnique | backend/app.py:25 | a '.' with no later '.' is the one the last-dot split uses |
| Upload.AllowedFile | backend/app.py:24-25 | a file name without a '.' is always rejected |
| Upload.AllowedFileIff | backend/app.py:16-25 | a file name is accepted iff it has a '.' with no '.' after it and the lower-cased text after that dot is one of webp, png, jpg, jpeg, gif |
| Upload.AllowedFileAcceptsUpperCase | backend/app.py:24-25 | "photo.PNG" is accepted because the extension is lower-cased |
| Upload.AllowedFileAcceptsBareExtension | backend/app.py:24-25 | ".gif" is accepted, since the text before the dot may be empty |
| Upload.AllowedFileUsesLastDot | backend/app.py:24-25 | "archive.png.zip" is rejected: only the text after the last dot counts |
| Upload.AllowedFileRejectsNoDot | backend/app.py:24-25 | "png" has no dot and is rejected |
| Links.LoadLinks | backend/app.py:27-31 | a missing links file loads as the empty list; otherwise the stored list is loaded |
| Links.Swap | backend/app.py:196-198 | the two positions exchange their elements, every other position keeps its element, and the result is a permutation |
| Links.GetLinks | backend/app.py:160-162 | reading the list answers 200 with the stored list (empty when nothing is stored) and never changes the store |
| Links.AddLink | backend/app.py:164-170 | the stored list becomes the old list with the document appended (one longer, earlier elements unchanged); the reply is 201 with the document |
| Links.DeleteLink | backend/app.py:172-179 | it succeeds iff 0 <= index < length; it then returns the element at index and stores the list with that element removed and later elements shifted left by one (a permutation minus that element); otherwise 404 "Index out of range" and the store is unchanged |
| Links.UpdateLink | backend/app.py:181-188 | it succeeds iff the index is in range; it then replaces only that position and keeps the length; otherwise 404 and the store is unchanged |
| Links.MoveLink | backend/app.py:190-203 | an out-of-range index gives 404, checked before the direction; in range, "up" above position 0 swaps with index-1 and "down" above the last position swaps with index+1, leaving every other position alone and keeping the same elements; any other case gives 400 "Cannot move in that direction"; errors leave the store unchanged |
| Links.AddThenDeleteRestores | backend/app.py:164-179 | deleting at the old length right after an append returns the appended document and restores the old list |
| Links.DeleteThenInsertRestores | backend/app.py:172-179 | putting the returned element back at its index rebuilds the original list |
| Links.UpdateThenRestore | backend/app.py:181-188 | writing the previous document back at the same index undoes an update |
| Links.MoveUpThenDownRestores | backend/app.py:194-198 | moving an element up and then moving it down from its new position restores the list |
| Links.MoveBoundariesRejected | backend/app.py:194-203 | moving the first element up or the last down gives 400; an index equal to the length gives 404 |
| Links.MoveExample | backend/app.py:194-196 | moving position 1 up in [A, B, C] gives [B, A, C] |
| Settings.LoadConfig | backend/app.py:37-42 | a stored document loads as stored; with no file the default has search.engine "google" and the legacy search.url, and no engines key |
| Settings.GetEngines | backend/app.py:61-63 | the engine list is search.engines when both keys are present, and empty otherwise |
| Settings.DefaultHasNoEngines | backend/app.py:41-42 | with nothing stored the engine list is empty, the active name is "google" and the legacy URL is present |
| Settings.SaveLoadRoundTrip | backend/app.py:37-46 | saving the loaded document and loading it again gives the same document and engine list, also when no file existed |
| Registry.FindName | backend/app.py:82-83 | the result is the first engine whose name equals the given name up to case, and None exactly when no engine matches |
| Registry.CountMatches | backend/app.py:93 | the number of case-insensitive matches is at most the length, and it is zero exactly when no engine matches |
| Registry.Unmatched | backend/app.py:93 | the filter keeps no engine that matches up to case, its length is the input's minus the number of matches, and with no match it is the identity |
| Registry.FilterKeepsOnlyInputs | backend/app.py:93 | every engine the filter keeps is an engine of the input |
| Registry.FilterKeepsOthers | backend/app.py:93 | every engine whose name differs up to case is kept |
| Registry.FilterKeepsOrder | backend/app.py:93 | the filter keeps the engines in their original relative order (a subsequence of the input) |
| Registry.FilterKeepsUnique | backend/app.py:93 | filtering keeps engine names unique up to case |
| Registry.AddEngine | backend/app.py:65-78 | it raises "Engine already exists" iff a name equal up to case is present; otherwise it appends {name, url, logo} after the unchanged old list, keeps search.engine and the legacy url, and keeps names unique |
| Registry.UpdateEngine | backend/app.py:80-88 | with no case-insensitive match it raises "Engine not found"; otherwise only the first match changes, its url and logo are set only from truthy arguments, its name and every other engine and the order are kept |
| Registry.RemoveEngine | backend/app.py:90-94 | the new list holds exactly the engines whose name differs up to case, as a subsequence of the old list; the search section is kept and always carries an engines list; search.engine and the legacy url are untouched; with no search section it raises KeyError('search') |
| Registry.RemoveEngineIdempotent | backend/app.py:90-94 | removing the same name a second time stores the same document |
| Registry.RemoveAbsentKeepsEngines | backend/app.py:90-94 | removing an absent name keeps the engine list, and stores the document back unchanged when it already had an engines list |
| Registry.RemoveEngineKeepsUnique | backend/app.py:90-94 | removal keeps names unique up to case |
| Registry.RemoveActiveLeavesDanglingName | backend/app.py:90-94 | removing the active engine leaves search.engine naming an engine that no longer exists |
| Registry.DeleteEngine | backend/app.py:120-126 | 200 "ok" iff the document has a search section, and the stored document is then exactly what remove_engine saves: no engine matches the name, the others are kept in order, the active name and legacy url are kept and names stay unique; otherwise 400 with the error text and no save |
| Registry.DeleteEngineTwice | backend/app.py:90-94 | after a successful DELETE, deleting the same name again also answers 200 and stores the same document |
| Registry.AllFields | backend/app.py:104 | `all([name, url, logo])` holds iff each of the three fields is truthy; it fails exactly when one of them is missing or empty |
| Registry.AddUpdateEngine | backend/app.py:98-118 | a missing or empty name, url or logo gives 400 "Missing fields" and no change; a name already present up to case leaves the store exactly as it was; a new name is appended at the end; the active name and the legacy search.url are kept and unique names stay unique |
| Registry.AddUpdateEngineLosesUpdate | backend/app.py:109-113 | re-posting "google" over a stored "Google" answers 200 but keeps the old url and logo |
| Registry.UpsertEngine | backend/app.py:109-115 | corrected handler: an existing name up to case gets the new url and logo at its position with its stored name kept, and no other engine changes; a new name is appended; the active name and the legacy search.url are kept; names stay unique |
| Registry.UpsertEngineUpdatesInPlace | backend/app.py:109-115 | with the corrected handler, posting "Google" then "google" leaves one engine carrying the second url and logo |
| Registry.SetActiveEngine | backend/app.py:128-141 | it succeeds iff some engine's name equals the requested name exactly; then only search.engine changes, to that name; otherwise 400 "Engine not found" and the store is unchanged |
| Registry.SetActiveEngineIsCaseSensitive | backend/app.py:136 | with an engine "Google", activating "google" is refused and activating "Google" succeeds |
| Registry.Handle | backend/app.py:98-141 | each registry request keeps engine names unique up to case |
| Registry.RunKeepsUniqueNames | backend/app.py:72-75 | any sequence of registry requests keeps engine names unique up to case |

## Left out

- Flask routing, `request` parsing and `jsonify`: requests become arguments
  and replies become `Reply` values carrying the status code and body.
- Request values that are not strings: `name`, `url`, `logo`, `engine` and
  `direction` are modelled as absent or a string. In the source a truthy
  non-string `url` or `logo` passes the field check and is stored as given.
  A non-string `engine` or `direction` compares unequal to every name or
  direction and gets a 400. A non-string `name` makes `.lower()` raise inside
  the `try` only when the engine list is non-empty, giving a 400; with an
  empty list it is appended and stored. A request body that is not JSON at
  all is not modelled either.
- Negative link indices: Flask's `<int:index>` converter never passes one.
  The model still takes any integer and treats a negative one as out of range.
- File I/O and JSON (de)serialisation in `load_links`, `save_links`,
  `load_config` and `save_config`: the store is an explicit value. A file
  that fails to parse is library behaviour and is not modelled.
- Stored documents of other shapes. `POST /config` stores any JSON
  verbatim, but the model holds only well-shaped ones: a list for the links
  file, an object for `search`, a string for `search.engine`, and engine
  entries with exactly the string fields `name`, `url` and `logo`. With an
  entry lacking `"name"`, the source answers 400 with the text `'name'` on
  `POST /config/engines` and on `DELETE /config/engines/<name>`, because the
  KeyError is raised inside their `try`. `POST /config/active` fails with an
  uncaught KeyError instead. Extra keys on an entry are carried along by
  `update_engine` and `remove_engine`, and the model cannot represent them.
- Sections of the configuration other than `search`, and keys of `search`
  other than `engine`, `url` and `engines`: no operation reads or writes them.
- `POST /config`: it overwrites the whole document with the request body and
  has no logic of its own.
- `upload_file` and `images_list`: `secure_filename`, `file.save` and
  `os.listdir` are foreign calls and file-system I/O. Only `allowed_file` is
  modelled.
- Login, logout, the admin page, template rendering and `app.run`: these are
  session and UI handling.
- Concurrent requests: two read-modify-write handlers can interleave and the
  last save wins. The model is sequential.
- Text.Lower: lower-cases ASCII letters only, whereas Python's `str.lower()`
  also folds other Unicode letters.
- Registry.Handle: states only that names stay unique. Each handler's own
  contract states the rest.

## Findings

| source | as written | input that shows it | evidently intended | confidence | as-written member | corrected member |
|---|---|---|---|---|---|---|
| backend/app.py:109-113 | the existing-name branch edits the list returned by `get_engines()`, then saves `load_config()`, a fresh copy without the edit | stored engines `[{Google, https://g.com/?q=, g.png}]`, POST name "google", url "https://g2.com/?q=", logo "g2.png": reply 200, stored url is still `https://g.com/?q=` | the matching engine gets the new url and logo in place and is saved | high; not executed | Registry.AddUpdateEngineLosesUpdate | Registry.UpsertEngine |
