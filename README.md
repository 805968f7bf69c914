# web-filemanager: the realtime editor rooms and the file-name rules, in Dafny

This project models the core logic of web-filemanager, a self-hosted file
manager. It has an Express server plus a browser front end, and a shared
realtime text editor that runs over socket.io.

**Server side (app.js).**
- The process-wide `editorRooms` registry: room id to its content and its user set.
- The `joinRoom`, `textChange` and `disconnect` handlers of a connection, and their helper `leaveRoom`.
- The `Editor` directory that keeps one text file per room.
- The file-name rules of the save-editor-file and create-file routes:
  - trimming and validating the name;
  - the `_room-<id>` suffix;
  - the `_N` loop that picks the first free name in `Saved`.

**Browser side (public/script.js).**
- The extension classifiers and the toast icon.
- The path part of the breadcrumb.
- The selection set with the "select all" tri-state.

**The modules.**

| file | module | what it holds |
|---|---|---|
| text.dfy | `Text` | JavaScript string behaviour the rest relies on: `trim`, ASCII `toLowerCase`, `split('/')`, `join('/')`, `filter(p => p)`, decimal rendering of a counter, UTF-8 byte length |
| editor_store.dfy | `EditorStore` | the room-to-file mapping, and load and save over a map from file name to content |
| editor_rooms.dfy | `EditorRooms` | each handler as a function from a state to the next state plus the messages it emits, and the properties proved of them |
| editor_registry.dfy | `EditorRegistry` | `class Registry`: the handlers as methods that update the registry's maps in place, each proved to make exactly the step `EditorRooms` describes and to keep the registry consistent |
| file_names.dfy | `FileNames` | name validation, Node's POSIX `path.extname`/`path.basename`, the room suffix, the numbered candidates |
| file_store.dfy | `FileStore` | `class Uploads`: the uploads directory as a map of files plus a set of directories; the free-name loop and the two routes as methods |
| file_view.dfy | `FileView` | `getFileIcon`, `getFileIconClass`, `isEditableFile`, `getToastIcon` |
| breadcrumb.dfy | `Breadcrumb` | the crumb loop of `updateBreadcrumb` |
| selection.dfy | `Selection` | `class FileSelection`: the loop that refills the selection set, and the tri-state |

**Modelling choices.**
- Each socket handler runs to completion on Node's event loop. It is therefore one atomic step.
- File-system reads and writes that may fail are boolean parameters (`readOk`, `writeOk`). A failed write leaves the files as they were.
- A broadcast is the set of sockets it reaches.

## Model

| member | source | states |
|---|---|---|
| Text.Trim | app.js:461-465 | `trim` returns the slice of the input between white-space runs at both ends. It is empty exactly when the input is all white space; otherwise it starts and ends with a non-space character |
| Text.TrimIdempotent | app.js:465 | trimming an already trimmed name changes nothing |
| Text.Split | public/script.js:478 | `split('/')` gives at least one piece, no piece holds a slash, and joining the pieces with "/" gives the input back |
| Text.NonEmpty | public/script.js:478 | `filter(p => p)` keeps exactly the non-empty pieces. A single piece is kept exactly when it is non-empty, and a list with no empty piece is kept whole |
| Text.NonEmptyAppend | public/script.js:478 | filtering a concatenation filters each side in turn. With the one-piece case this fixes the result piece by piece, so order and repeats are kept |
| Text.NatToString | app.js:494 | the counter in a candidate name is its decimal rendering: one or more digits that spell the number, with no leading zero, a single digit exactly below 10 |
| Text.NatToStringInjective | app.js:494 | different counters render differently |
| Text.Utf8Length | app.js:508 | `Buffer.byteLength(content, 'utf8')` is one to four bytes per character, and one per character exactly when the content is ASCII. A single character takes its UTF-8 width |
| Text.Utf8Width | app.js:508 | the UTF-8 width of a scalar value is 1, 2, 3 or 4 bytes for the ranges below U+0080, U+0800, U+10000 and above, each in both directions (section 3 of RFC 3629) |
| Text.Utf8LengthAppend | app.js:508 | the byte length of a concatenation is the sum of the byte lengths, so a content's size is the sum of its characters' widths |
| Text.Lower | public/script.js:425 | `toLowerCase` keeps the length and maps each character on its own, turning A-Z into a-z and leaving every other character; no ASCII capital remains |
| EditorStore.NormalizeRoom | app.js:726 | an empty room id stands for "default"; any other id stands for itself; the result is never empty |
| EditorStore.StorageKey | app.js:667-673 | the file name ends in ".txt" and is "default.txt" exactly for "" and "default"; without ".txt" it is the normalized room id |
| EditorStore.StorageKeyInjective | app.js:689-695 | two ids give the same file name exactly when they normalize to the same room; ids that `path.join` would still merge are under Left out (EditorStore.SaveIsolated) |
| EditorStore.LoadContent | app.js:687-712 | the stored text of the room when its file exists and can be read; "" when the file is missing or the read fails |
| EditorStore.SaveContent | app.js:665-684 | a successful save sets the room's file to the content and touches no other file; a failed save changes nothing |
| EditorStore.LoadAfterSave | app.js:665-712 | loading a room right after saving it returns what was saved |
| EditorStore.SaveIsolated | app.js:665-712 | saving one room never changes what a different room loads, for room ids that are single plain path components (see Left out) |
| EditorRooms.Init | app.js:658 | at start no room is live (not even "default"), no connection has a room, and the state is consistent |
| EditorRooms.Peers | app.js:765 | the peers of a connection are exactly the other connections whose current room is its own |
| EditorRooms.Leave | app.js:777-794 | `leaveRoom` does nothing for a room that is not live. Otherwise it drops the connection from the room, deletes the room exactly when it is now empty and is not "default", and emits one count update carrying the new count. The update goes to the remaining users, plus the leaver when it is still connected. Other rooms and `currentRoom` are untouched; "default" is never deleted |
| EditorRooms.LeaveCurrent | app.js:720-723 | a connection that has not joined a room leaves nothing; one that has runs `leaveRoom` on its current room while still connected |
| EditorRooms.Join | app.js:719-753 | after `joinRoom` the current room is the normalized id, and that room is live and holds the connection. The handler emits what leaving emitted, then the room's content to the joiner, then the room's new user count to all its users, then the room id to the joiner. A room that was not live starts with the stored content and the joiner alone. A live room the joiner was not in keeps its content and gains the joiner. For a re-join of the joiner's own room see RejoinContent |
| EditorRooms.Enter | app.js:725-752 | once the connection has left: the current room becomes the normalized id, that room is added to the live rooms and no other room changes. Its content is the live content or else the stored one, its users the old users or else none, plus the joiner. Content, count and room id are sent in that order |
| EditorRooms.RejoinContent | app.js:719-740 | re-joining one's own room keeps its content when the room has other users or is "default". Otherwise the leave deletes it and it is rebuilt from its file |
| EditorRooms.JoinConsistent | app.js:719-753 | joining keeps the registry consistent: a user of a room has it as current room and vice versa; every live room other than "default" has users; no room is keyed "" |
| EditorRooms.RejoinKeepsUsers | app.js:721-740 | re-joining the current room leaves its user set as it was |
| EditorRooms.LeaveCurrentFrees | app.js:720-723 | after leaving its current room the connection is in no room's user set; every other connection is still in the room it was in, and no room other than "default" is left empty |
| EditorRooms.TextChange | app.js:756-767 | with no live current room nothing changes and nothing is sent. Otherwise the current room's content becomes the payload (last write wins) with its users unchanged, the payload is saved to the room's file, no other room changes, and one text update reaches the room's users other than the sender |
| EditorRooms.TextChangeConsistent | app.js:756-767 | editing keeps the registry consistent |
| EditorRooms.Disconnect | app.js:770-774 | a connection that has joined a room leaves it without being counted among the recipients, and the connection's current room is gone afterwards; the directory is untouched |
| EditorRooms.DisconnectConsistent | app.js:770-774 | disconnecting keeps the registry consistent, and the connection is in no room afterwards |
| EditorRooms.AtMostOneRoom | app.js:719-740 | in a consistent state a connection is in at most one room's user set |
| EditorRooms.CurrentRoomIsLive | app.js:757 | in a consistent state a joined connection's current room is live and holds it, so the `editorRooms.has` test of `textChange` always holds |
| EditorRooms.TextUpdateReachesPeers | app.js:765 | a text update reaches exactly the other connections that share the sender's current room |
| EditorRooms.LeaveReportsCount | app.js:785 | every count a leave reports equals the room's user count right after the removal (0 once the room is deleted) |
| EditorRooms.DurableAfterJoin | app.js:729-737 | when every live room matches its file, a successful join keeps it so |
| EditorRooms.DurableAfterTextChange | app.js:757-762 | when every live room matches its file, a successful edit keeps it so |
| EditorRooms.DurableAfterDisconnect | app.js:770-774 | when every live room matches its file, a disconnect keeps it so |
| EditorRooms.ContentSurvivesTeardown | app.js:729-737 | one connection joins, edits and disconnects; a second connection then joining the same room is sent the edited content, whether the room stayed live or was deleted and is reloaded from its file |
| EditorRooms.DefaultRoomKeepsContent | app.js:788 | the default room survives its last user leaving, and the next joiner is sent its content even when reading the file would fail |
| EditorRooms.RejoinCountsOnce | app.js:719-740 | joining the same room twice in a row counts the connection once; a room new to the first join then has exactly one user |
| EditorRooms.RejoinAloneReloads | app.js:719-740 | as written, a connection alone in room "r" with text "hello" that joins "r" again is sent "" when the file cannot be read, from a consistent state (see Findings) |
| EditorRooms.RejoinKeepsContentWhenDurable | app.js:719-740 | that loss needs a failed write or read: when every live room matches its file and the read succeeds, a re-join is sent the text the room had |
| EditorRooms.JoinKeepingRoom | app.js:719-740 | the corrected handler skips the leave and the reload when the connection is already in the room it joins, and is `Join` otherwise |
| EditorRooms.JoinKeepingRoomResends | app.js:719-740 | with the correction, every join keeps the registry consistent, and a re-join leaves the state exactly as it was while re-sending the room's content, count and id |
| EditorRegistry.Registry.constructor | app.js:658 | the registry starts empty over the files already on disk, and consistent |
| EditorRegistry.Registry.LeaveRoom | app.js:777-794 | the method updates the room map in place and emits exactly what `Leave` describes |
| EditorRegistry.Registry.AutoSave | app.js:665-684 | the method writes the directory as `SaveContent` describes and leaves the rooms and connections alone |
| EditorRegistry.Registry.OnJoinRoom | app.js:719-753 | the handler makes exactly the step `Join` describes, emits its messages in order, and keeps the registry consistent |
| EditorRegistry.Registry.EnterRoom | app.js:725-752 | after leaving: record the current room, create the room from the file when it is not live, add the connection, send content, count and room id |
| EditorRegistry.Registry.OnTextChange | app.js:756-767 | the handler makes exactly the step `TextChange` describes, saves through `AutoSave`, and keeps the registry consistent |
| EditorRegistry.Registry.OnDisconnect | app.js:770-774 | the handler makes exactly the step `Disconnect` describes and keeps the registry consistent |
| FileNames.ValidateName | app.js:461-470 | a name that is all white space (or empty) is "required". A trimmed name holding "..", "/" or "\\" is "invalid". Every other name is accepted as its trimmed form, which is non-empty, safe and has no white space at either end. All three are stated in both directions |
| FileNames.ValidateNameIdempotent | app.js:465 | an accepted name is accepted unchanged when sent again |
| FileNames.Extname | app.js:479 | the extension is a suffix of the name. When non-empty it starts with its only dot and is shorter than the name. It is empty exactly when the name has no dot, its last dot leads it, or the name is ".." |
| FileNames.Stem | app.js:480 | stem followed by extension is the name; a name with an extension has a non-empty stem |
| FileNames.ExtnameOfSuffix | app.js:479-481 | appending a one-dot extension to a stem gives a name with that extension |
| FileNames.RoomFileName | app.js:477-482 | outside the default room (and for a non-empty id) the stem gains `_room-<roomId>` before the extension; otherwise the name is kept |
| FileNames.RoomFileNameKeepsSlash | app.js:478-484 | as written, "notes.txt" is accepted, yet saving it from room "x/../../app" yields the name "notes_room-x/../../app.txt", which holds "/" and ".." |
| FileNames.SavedFileName | app.js:477-482 | the corrected suffix rule refuses exactly the non-default room ids that hold "..", "/" or "\\"; otherwise it gives the suffixed name |
| FileNames.SavedFileNameIsOneComponent | app.js:477-484 | an accepted save name holds neither "/" nor "\\", so it stays inside `Saved` |
| FileNames.RoomFileNameKeepsExtension | app.js:479-481 | the suffixed name keeps the extension of the file name, and its stem is the old stem plus `_room-<roomId>` |
| FileNames.Candidate | app.js:492-494 | a numbered name is slash-free and longer than the name it replaces |
| FileNames.CandidateKeepsExtension | app.js:492-494 | the counter goes between stem and extension: the numbered name keeps the extension, and its stem is `<stem>_<N>` |
| FileNames.CandidateInjective | app.js:494 | two counters give the same numbered name exactly when they are equal, and no numbered name is the original |
| FileStore.Dirname | app.js:541 | `path.dirname` of a relative path is empty or a proper prefix followed by a slash; its value is fixed by FileStore.DirnameOfChild. A bare name gives "", which stands for the uploads directory itself where Node would give "." on a relative path; the source applies `dirname` to the absolute path under the uploads directory, whose parent is then that directory |
| FileStore.JoinPath | app.js:484 | joining "." gives the directory itself; any other one-component name is appended after a "/", or stands alone in the uploads directory |
| FileStore.JoinPathInDir | app.js:484 | a joined name other than "." lies directly in the directory (its `path.dirname` is the directory) and the path ends in the name |
| FileStore.DirnameOfChild | app.js:541 | the dirname of `dir + "/" + name`, for a slash-free name, is `dir`, and that of a bare name is "" (the uploads directory) |
| FileStore.Normalize | app.js:484-495 | `path.normalize` on segments leaves no empty or "." segment, never more segments than it was given, and only segments of the input; any ".." left comes before every other segment |
| FileStore.NormalizeAppendPlain | app.js:484-495 | a plain segment (not "", "." or "..") appended to a path is kept as its last segment |
| FileStore.NormalizeCancels | app.js:484-495 | a plain segment followed by ".." cancels: the path normalizes as if neither were there |
| FileStore.NormalizeDropsDot | app.js:484-495 | an appended "" or "." segment is dropped |
| FileStore.RoomIdLeavesSaved | app.js:484-495 | as written, the save of "notes.txt" from room "x/../../app" is joined onto `Saved` as slash-free segments that normalize to "app.txt": a file of the uploads directory, outside `Saved` |
| FileStore.JoinPathInjective | app.js:484 | inside one directory, different one-component names give different paths |
| FileStore.Attempt | app.js:488-494 | attempt 0 is the name itself, attempt N the N-th numbered name |
| FileStore.AttemptInjective | app.js:491-497 | the attempts are pairwise different names |
| FileStore.AttemptPathsDiffer | app.js:495 | the attempts are pairwise different paths in `Saved` |
| FileStore.FirstFreeUnique | app.js:491-497 | what is already taken determines the first free attempt |
| FileStore.FirstFreeKeepsFreeName | app.js:488-491 | a name that is free is used unchanged |
| FileStore.FirstFreeOfTried | app.js:491-497 | when the first N attempts are taken and attempt N is free, attempt N is the first free one |
| FileStore.Uploads.Taken | app.js:491 | `fs.existsSync` holds for the uploads directory itself (""), every file and every directory, and for nothing else |
| FileStore.Uploads.FreeSavedName | app.js:486-497 | the loop ends on the first attempt whose path in `Saved` does not exist: the name itself when it is free, else `<stem>_N<ext>` with the least such N ≥ 1. The name is slash-free and its path is free. The loop terminates because each iteration marks one more existing path |
| FileStore.Uploads.SaveEditorFile | app.js:457-514 | a bad file name gives its error with nothing changed (and so does a bad room id, under the correction in Findings). Otherwise `Saved` exists afterwards. A failed write leaves the files as they were. A successful write stores the content under the first free attempt, a path that did not exist, and reports name, path and UTF-8 size |
| FileStore.Uploads.CreateFile | app.js:517-559 | a bad name gives its error with nothing changed, and an existing target gives "already exists" with nothing changed. Otherwise the parent directory exists afterwards. A failed write leaves the files as they were; a successful one stores the content at the target and reports the trimmed name, the path and the UTF-8 size |
| FileView.FileIcon | public/script.js:422-435 | "folder" exactly for directories. For files, each kind exactly when the lower-cased extension is in its list and in no earlier list; "default" exactly when it is in none |
| FileView.FileIconClass | public/script.js:437-455 | each class in both directions: "fa-folder" exactly for directories; for files "fa-file-code" for ".json", ".xml" and the source extensions, "fa-file-text" for ".txt" and ".md", "fa-file-image", "-video", "-audio" and "-archive" for their lists, "fa-file-pdf" for ".pdf", "-word" for ".doc"/".docx", "-excel" for ".xls"/".xlsx", "-powerpoint" for ".ppt"/".pptx"; "fa-file" exactly for ".csv" and extensions in no list |
| FileView.IsEditable | public/script.js:457-464 | a directory is never editable; a file is editable exactly when its lower-cased extension is a text or a source extension |
| FileView.EditableIsTextOrCode | public/script.js:457-464 | the editor opens exactly the files with the text icon or the code icon class |
| FileView.IconsAgree | public/script.js:422-455 | the two classifiers agree on images, video, audio, archives and office documents |
| FileView.ClassifiersIgnoreCase | public/script.js:425-463 | every classifier gives the same answer for an extension and its lower-cased form |
| FileView.ToastIcon | public/script.js:716-723 | "success", "error" and "warning" each have their own icon, and every other type gets "fa-info-circle", all stated in both directions |
| Breadcrumb.Parts | public/script.js:478 | the empty path has no segments; every segment is non-empty and slash-free |
| Breadcrumb.Trail | public/script.js:487-496 | there is one crumb per segment |
| Breadcrumb.UpdateBreadcrumb | public/script.js:477-497 | the loop builds the Home crumb, active exactly on the root, and one crumb per segment. Crumb i shows segment i, links to the first i + 1 segments joined by "/", and is active exactly when it is last |
| Breadcrumb.TrailExtends | public/script.js:488 | each crumb's path is the previous crumb's path, a "/" and its own segment, so it extends the previous one |
| Breadcrumb.TrailEndsAtPath | public/script.js:486-489 | the last crumb links to the path with its empty segments dropped, which is the path itself when it has none |
| Breadcrumb.ActiveCrumbs | public/script.js:481-493 | on the root only Home is active and there are no crumbs; otherwise Home is not active and only the last crumb is; a path of slashes alone has no active crumb |
| Breadcrumb.NoSegmentsIffSlashes | public/script.js:478 | a non-empty path has no segments exactly when it is made of slashes only |
| Selection.CheckedValues | public/script.js:766-767 | the selection holds exactly the values of the checked boxes, and no more values than there are boxes |
| Selection.CountIsTotal | public/script.js:775-788 | the selected count equals the number of boxes exactly when every box is checked and no two boxes share a value |
| Selection.SelectAllState | public/script.js:785-794 | "select all" is never checked and indeterminate at once. It is checked exactly when some are selected and the counts meet, and indeterminate exactly when some but not all are; with none selected it is clear, even with no boxes |
| Selection.SelectAllOfBoxes | public/script.js:784-794 | over the boxes, "select all" is checked exactly when there are boxes, all checked with distinct values, and clear exactly when no box is checked |
| Selection.FileSelection.UpdateSelectedFiles | public/script.js:757-795 | the loop refills the set with exactly the checked values. The count text is the decimal count plus " selected", the bulk actions show exactly when some box is checked, and "select all" takes the tri-state of the count |

## Left out

- **HTTP plumbing:** the Express routes, sessions and authentication; multer upload placement; directory listing and its locale-dependent sort; rename, delete, folder creation and ZIP download. They are library I/O around the modelled rules.
- **healthcheck.js:** a network request followed by process exit.
- **socket.io transport:** `socket.join`, `socket.leave` and delivery. A connection's socket.io rooms are modelled only as the recipient sets they produce. The private per-socket room is not modelled.
- **Logging:** console output, including the logging of swallowed I/O errors.
- **Concurrency:** none is modelled. The event loop serializes the handlers, which the model treats as atomic steps.
- **I/O outcomes:** `fs` reads and writes are a map of file contents. Their failures are the `readOk` and `writeOk` parameters. A throwing `ensureDirSync` is not modelled, nor is a file sitting where a directory is needed. `FileStore.Uploads` keeps `files` and `dirs` as given and has no invariant tying them together: `Taken()` is what `fs.existsSync` reports only when `dirs` holds every ancestor directory of every file and no path is both a file and a directory. On a state such as files {"Saved/a.txt/x"} with no directories, `FreeSavedName` may pick "a.txt", which exists on a real disk.
- **getSafePath and `path.join` normalization:** `currentPath` is taken as an already normalized relative path. `FileStore.JoinPath` joins one component onto it, with "." naming the directory itself. The model therefore does not capture what getSafePath does with a `currentPath` that climbs out of the uploads directory.
- **Ancestor directories:** `ensureDirSync` also creates every missing ancestor of the parent directory. `FileStore.Uploads.CreateFile` records only the parent itself.
- **`path.relative(...).replace(/\\/g, '/')`:** the reported path is the model's relative path directly.
- **Loose request values:** a non-string `roomId`, `filename` or `content` is not modelled. The falsy-value defaults (`content || ''`, `content = ''`) are not modelled either: every content is a string.
- **`toLowerCase`:** only ASCII letters are lower-cased. No non-ASCII character lower-cases into one of the listed ASCII extensions, so the classifiers see no difference.
- **FileNames.Extname, FileNames.Stem:** these model Node's `path.extname` and `path.basename(p, ext)` only for names without a slash. Those are the only names the corrected model passes them.
- **Floating point and timers:** `formatFileSize` uses `Math.log` and `toFixed`. The upload progress simulation uses `Math.random` and timers.
- **DOM and HTML:** all DOM and HTML rendering is left out, including the `selected` CSS classes of `updateSelectedFiles` and the breadcrumb markup. The crumbs are modelled as (text, path, active) values.
- **`leaveRoom` count updates, modelled as the code sends them:**
  - A count update is emitted even when the room has just been deleted; it reports 0.
  - When a connection leaves in order to join another room, it still receives the old room's count, because `socket.leave` runs after the emit.
- **EditorStore.SaveIsolated:** room ids are taken as single plain path components, with no "/" and no "." or ".." segment. The `Editor` paths that `path.join` builds are not normalized. Ids that `path.join` would merge, such as "a" and "./a" (one file), or send elsewhere, such as "../Saved/x" (outside `Editor`), are therefore not modelled.
- **Text.Utf8Length:** a JavaScript string may hold a lone surrogate, which `Buffer.byteLength` counts as the 3 bytes of U+FFFD. Dafny characters are scalar values, so lone surrogates are not modelled.
- **EditorRegistry.Registry.OnJoinRoom:** this follows the handler as written, leave included, on a re-join. The corrected `EditorRooms.JoinKeepingRoom` is stated beside it as a function only (see Findings).
- **FileStore.Uploads.SaveEditorFile:** this uses the corrected room-suffix rule `FileNames.SavedFileName`, which can refuse a request where the code as written goes on. The behaviour as written is `FileNames.RoomFileName`, kept beside it (see Findings).

## Findings

| source | as written | input that shows it | evidently intended | confidence | as-written member | corrected member |
|---|---|---|---|---|---|---|
| app.js:477-484 | The room id is spliced into the save name unchecked, after the file name alone has been checked for "..", "/" and "\\". | filename "notes.txt", roomId "x/../../app": the name becomes "notes_room-x/../../app.txt", which holds "/" and "..". The path "Saved/notes_room-x/../../app.txt" normalizes to "app.txt" in the uploads directory, outside `Saved` (FileStore.RoomIdLeavesSaved) | the room id held to the same rule as the file name, so that a manual save stays one file inside `Saved` | medium, not executed | FileNames.RoomFileNameKeepsSlash | FileNames.SavedFileNameIsOneComponent |
| app.js:719-740 | `joinRoom` calls `leaveRoom` even when the connection re-joins the room it is already in. When it was alone in a room other than "default", the room is deleted and rebuilt from its file, which discards the text held in memory | state with room "r" = ("hello", {c}), c's current room "r", no file; c joins "r" with the read failing: c is sent "" instead of "hello" | a re-join re-delivers the room as it is | low, not executed; the loss needs an earlier failed write or read (EditorRooms.RejoinKeepsContentWhenDurable) | EditorRooms.RejoinAloneReloads | EditorRooms.JoinKeepingRoomResends |
