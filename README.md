# MindMap file layer, in Dafny

This project models the file-naming and file-list layer of the MindMap
Android app (Kotlin), together with the editor's page-list updates. It
proves properties of that model. The parts covered are:

- **Extensions** (`Extensions.kt`):
  - sanitising a map name into a file name;
  - the name-exists search;
  - the five-key record (`applyBasicContent`) that a map file is saved as.
- **FileIO** (`FileIO.kt`). The app-private directory is a class holding a
  map from names to texts, and device documents are a map from URIs to
  texts. The module covers:
  - writing, reading, listing and deleting files;
  - the probing loop of `makeUniqueFilename`;
  - the batch import `getJsonDataFromUris`, with the outcome of each URI
    supplied as a value.
- **MainViewModel** (`MainActivityViewModel.kt`): the view model's file
  list, and `initLoadFiles`. That load decodes each listed file, with
  fallbacks, and publishes the entries sorted by name in descending order.
- **MainActivity** (`MainActivity.kt`):
  - the map-name check;
  - the three callbacks that change the file list: saving to a picked
    document, saving to the app directory, and importing documents.
- **EditorViewModel** (`MapEditorViewModel.kt`):
  - the page list and the editor-mode flag;
  - the title and content edits, which draw a fresh uuid for the edited
    note;
  - the `Note.create` and `SpaceNode.create` counters, as 32-bit `Int`s.

Helper modules:

- **Wrappers**: Kotlin's nullable type, as `Option`.
- **Strings**: the Kotlin string functions the code relies on. These are
  `trim`, `isBlank` (JVM `Char.isWhitespace`), `endsWith` with and without
  `ignoreCase`, `removeSuffix`, decimal rendering, and `compareTo`.
- **Json**: a field-level `JSONObject` with `put`, `optString` and `optLong`.
- **Classes**: `FileData` and `StorageOption`.

**Scenarios** works through concrete inputs.

Parsing and printing JSON text belong to the library. They enter as
function parameters:

- `parse` stands for `JSONObject(text)` and gives `None` where that throws.
- `render` stands for `toString(2)`.
- `toText` stands for the object's string form.

Clock readings, drawn UUIDs and the outcome of each file-system call are
parameters too. Each Kotlin callback becomes a method on the view model and
the stores it writes. The list the screen collected (`fileList`) is passed
in explicitly, because the callbacks read it and not the view model's
current value.

Some behaviour of the code that a reader might not expect, and that the
model keeps:

- The loader marks every entry as `APP`, whatever `storage` the record
  holds. `MainViewModel.SavedRecordLoadsBack` shows this.
- `storedIn` holds the label's resource id (an integer), not a text.
- `writeTextToUri` answers true when the resolver hands back no output
  stream, even though nothing is written.
- The name check measures `length` in UTF-16 code units, so a character
  outside the Basic Multilingual Plane counts twice.
- Assigning to a `MutableStateFlow` does nothing when the new value
  `equals` the old one. A `Note`'s `equals` ignores its `uuid`, so an edit
  that leaves a note's text as it was also leaves its old uuid.
- The import callback keeps only the last successful document (see
  Findings).
- A map saved as "a.JSON" is not listed again on the next start (see
  Findings).
- `MainActivity.kt:203` passes a `JSONObject` where `FileData.fileContent` is
  a `String`. The model stores the object's text through `toText`.

## Model

| member | source | states |
|---|---|---|
| Strings.IsWhitespace | app/src/main/java/com/frozy/mindmap/Extensions.kt:30 | every JVM whitespace character lies in the Basic Multilingual Plane, so whitespace tests agree on characters and on UTF-16 units |
| Strings.IsBlank | app/src/main/java/com/frozy/mindmap/FileIO.kt:136 | a blank string has as many UTF-16 units as characters |
| Strings.Utf16Length | app/src/main/java/com/frozy/mindmap/MainActivity.kt:107 | `length` lies between the number of characters and twice that; it equals it exactly when every character is in the Basic Multilingual Plane |
| Strings.Utf16LengthAppend | app/src/main/java/com/frozy/mindmap/MainActivity.kt:107 | `length` of a concatenation is the sum of the lengths |
| Strings.Utf16LengthSupplementary | app/src/main/java/com/frozy/mindmap/MainActivity.kt:107 | a string made only of characters outside the Basic Multilingual Plane has `length` twice its number of characters |
| Strings.TrimStart | app/src/main/java/com/frozy/mindmap/Extensions.kt:30 | the result is a suffix of the input, what was dropped is whitespace, and the result does not start with whitespace |
| Strings.TrimEnd | app/src/main/java/com/frozy/mindmap/Extensions.kt:30 | the result is a prefix of the input, what was dropped is whitespace, and the result does not end with whitespace |
| Strings.Trim | app/src/main/java/com/frozy/mindmap/Extensions.kt:30 | no outer whitespace remains; the result is empty exactly when the input is blank; a name without outer whitespace is returned unchanged |
| Strings.TrimKeepsCharacters | app/src/main/java/com/frozy/mindmap/Extensions.kt:30 | every character of the trimmed name occurs in the input |
| Strings.TrimShortens | app/src/main/java/com/frozy/mindmap/Extensions.kt:30 | trimming never increases `length` |
| Strings.EndsWith | app/src/main/java/com/frozy/mindmap/FileIO.kt:83 | case-sensitive `endsWith`: the name is some prefix followed by exactly the suffix (also the test inside `removeSuffix`, FileIO.kt:92) |
| Strings.EndsWithByPosition | app/src/main/java/com/frozy/mindmap/FileIO.kt:83 | the same test position by position: the last characters of the name are those of the suffix |
| Strings.EndsWithAppended | app/src/main/java/com/frozy/mindmap/FileIO.kt:93 | a name built by appending a suffix ends with it |
| Strings.UpperCaseToAscii | app/src/main/java/com/frozy/mindmap/Extensions.kt:35 | upper-casing moves 'a'..'z' down by 32 and maps only those, the dotless i and the long s to ASCII capitals; every other character is kept |
| Strings.EndsWithJsonIgnoringCase | app/src/main/java/com/frozy/mindmap/Extensions.kt:35 | names ending in ".json" or ".JSON" pass the case-insensitive check |
| Strings.EndsWithJsonIgnoringCaseByPosition | app/src/main/java/com/frozy/mindmap/Extensions.kt:35 | a name passes exactly when it has at least five characters and its last five upper-case to the upper case of ".json", position by position |
| Strings.RemoveSuffix | app/src/main/java/com/frozy/mindmap/FileIO.kt:92 | case-sensitive: with the suffix present, result plus suffix is the input; otherwise the input is unchanged |
| Strings.NatToString | app/src/main/java/com/frozy/mindmap/FileIO.kt:93 | the rendering is a non-empty string of decimal digits whose value is n, with no leading zero (one digit exactly for n < 10) |
| Strings.NatToStringInjective | app/src/main/java/com/frozy/mindmap/FileIO.kt:93 | different numbers have different renderings |
| Strings.IntToString | app/src/main/java/com/frozy/mindmap/MainActivityViewModel.kt:40 | the text `optString` gives for a number: a minus sign exactly for negative numbers, followed by digits whose value is the magnitude |
| Strings.LexLeq | app/src/main/java/com/frozy/mindmap/MainActivityViewModel.kt:56 | `compareTo` on `fileName`: a prefix comes no later than the longer name, and a name no later than another has a first character no greater |
| Strings.LexLeqFirstDifference | app/src/main/java/com/frozy/mindmap/MainActivityViewModel.kt:56 | names that agree up to a position and differ there are ordered by the characters at that position |
| Strings.LexLeqTotal | app/src/main/java/com/frozy/mindmap/MainActivityViewModel.kt:56 | any two names are comparable under `compareTo` |
| Strings.LexLeqTransitive | app/src/main/java/com/frozy/mindmap/MainActivityViewModel.kt:56 | the name order is transitive |
| Strings.LexLeqAntisymmetric | app/src/main/java/com/frozy/mindmap/MainActivityViewModel.kt:56 | names that are each at most the other are equal |
| Json.OptString | app/src/main/java/com/frozy/mindmap/MainActivityViewModel.kt:40 | an absent key gives the fallback; a string value is returned as stored |
| Json.OptLong | app/src/main/java/com/frozy/mindmap/MainActivityViewModel.kt:42 | a number under the key is returned; anything else gives the fallback |
| Json.JsonObject.Put | app/src/main/java/com/frozy/mindmap/Extensions.kt:19-23 | exactly the one key is set, and the other keys keep their values |
| Extensions.WithBasicContent | app/src/main/java/com/frozy/mindmap/Extensions.kt:13-26 | the keys are the old keys plus the five basic keys, with name, enum name, time, content and label id as their values; other keys are unchanged |
| Extensions.ApplyBasicContent | app/src/main/java/com/frozy/mindmap/Extensions.kt:13-26 | returns the same object, whose fields become the old fields with the basic content |
| Extensions.BasicContentReadsBack | app/src/main/java/com/frozy/mindmap/Extensions.kt:19-22 | `optString("fileContent")` and `optLong("createdAt")` on the record give back the saved content and time |
| Extensions.IsIllegalFileNameChar | app/src/main/java/com/frozy/mindmap/Extensions.kt:33 | a character is illegal exactly when it is one of `/ \ : * ? " < > \|` |
| Extensions.ReplaceIllegalChars | app/src/main/java/com/frozy/mindmap/Extensions.kt:33 | the length is kept; each illegal character becomes '_' and every other character stays in place; none is left |
| Extensions.TrimmedOrFallback | app/src/main/java/com/frozy/mindmap/Extensions.kt:30 | a blank name gives the fallback; any other name gives its trimmed form, which is non-empty and has no outer whitespace |
| Extensions.EnsureJsonExtension | app/src/main/java/com/frozy/mindmap/Extensions.kt:35-36 | the result ends with ".json" ignoring case and has no illegal character |
| Extensions.SanitizeAndEnsureJsonExtension | app/src/main/java/com/frozy/mindmap/Extensions.kt:29-37 | the result always ends with ".json" ignoring case and never contains an illegal character |
| Extensions.AppendExtension | app/src/main/java/com/frozy/mindmap/Extensions.kt:36 | appending ".json" to a clean name gives a clean name that passes the check |
| Extensions.SanitizeShape | app/src/main/java/com/frozy/mindmap/Extensions.kt:29-37 | the result is the trimmed name (or the fallback) replaced one for one, and it is 5 characters longer, ending in ".json", exactly when the replaced name fails the case-insensitive check |
| Extensions.SanitizeBlankUsesFallback | app/src/main/java/com/frozy/mindmap/Extensions.kt:30 | a blank name is sanitised as the fallback |
| Extensions.SanitizeTrimmedName | app/src/main/java/com/frozy/mindmap/Extensions.kt:30-36 | a non-empty name without outer whitespace is sanitised as it stands |
| Extensions.ReplaceKeepsOuterWhitespace | app/src/main/java/com/frozy/mindmap/Extensions.kt:33 | replacement neither creates nor removes outer whitespace or blankness |
| Extensions.EnsureKeepsOuterWhitespace | app/src/main/java/com/frozy/mindmap/Extensions.kt:35-36 | adding the extension leaves a non-empty name without outer whitespace |
| Extensions.ReplaceIdentityWithoutIllegal | app/src/main/java/com/frozy/mindmap/Extensions.kt:33 | a name without illegal characters is not changed by replacement |
| Extensions.SanitizeIdempotent | app/src/main/java/com/frozy/mindmap/Extensions.kt:29-37 | sanitising twice equals sanitising once, provided the fallback has no outer whitespace |
| Extensions.CheckIfNameExists | app/src/main/java/com/frozy/mindmap/Extensions.kt:40-46 | true exactly when some entry's `fileName` equals the name exactly (so false on an empty list) |
| FileIO.WriteTextToUri | app/src/main/java/com/frozy/mindmap/FileIO.kt:30-44 | true unless opening or writing throws; only a real write changes the document, and a missing stream writes nothing yet answers true |
| FileIO.WriteTextToFileInAppStorage | app/src/main/java/com/frozy/mindmap/FileIO.kt:47-60 | on success the entry is created or replaced with the text; on failure the directory is unchanged |
| FileIO.ReadTextFromFileInAppStorage | app/src/main/java/com/frozy/mindmap/FileIO.kt:63-76 | a missing name gives null, not a failure; a text returned is the entry's text; a readable entry is returned |
| FileIO.KeepJsonFiles | app/src/main/java/com/frozy/mindmap/FileIO.kt:83 | exactly the entries ending with case-sensitive ".json" are kept |
| FileIO.ListFilesInAppStorage | app/src/main/java/com/frozy/mindmap/FileIO.kt:79-85 | a null listing gives the empty list; otherwise the ".json" entries of the listing |
| FileIO.KeepJsonFilesIgnoringCase | app/src/main/java/com/frozy/mindmap/FileIO.kt:83 | corrected filter: keeps exactly the entries whose name passes the case-insensitive ".json" check, a superset of the as-written filter |
| FileIO.ListFilesInAppStorageIgnoringCase | app/src/main/java/com/frozy/mindmap/FileIO.kt:79-85 | corrected listing: a null listing gives nothing; otherwise an entry is listed exactly when it is in the listing and ends with ".json" in some case |
| FileIO.KeepJsonFilesAppend | app/src/main/java/com/frozy/mindmap/FileIO.kt:83 | filtering distributes over concatenation, so listing order is kept |
| FileIO.KeepJsonFilesIdentity | app/src/main/java/com/frozy/mindmap/FileIO.kt:83 | a listing of ".json" entries only is returned as it is |
| FileIO.Candidate | app/src/main/java/com/frozy/mindmap/FileIO.kt:92-93 | every numbered probe ends with ".json" |
| FileIO.CandidatesDistinct | app/src/main/java/com/frozy/mindmap/FileIO.kt:89-95 | the probes `base`, `base(1).json`, `base(2).json`, ... are pairwise distinct |
| FileIO.CandidatesBound | app/src/main/java/com/frozy/mindmap/FileIO.kt:91-95 | if the first n probes all exist, the directory has at least n entries (so the loop ends) |
| FileIO.MakeUniqueFilename | app/src/main/java/com/frozy/mindmap/FileIO.kt:88-97 | the result names no entry; it is `baseName` when that is free; otherwise it is the first probe that is free, and every earlier probe exists |
| FileIO.DeleteFileInAppStorage | app/src/main/java/com/frozy/mindmap/FileIO.kt:99-102 | true exactly when the name existed and deletion went through; then only that name is removed; otherwise nothing changes |
| FileIO.GetFileNameFromUri | app/src/main/java/com/frozy/mindmap/FileIO.kt:104-120 | a throwing query throws; a row gives its display name, possibly null; with no cursor or no row the result is null |
| FileIO.NameOrEmpty | app/src/main/java/com/frozy/mindmap/FileIO.kt:128-131 | the name is "" exactly when the display name is null or empty; a present name is kept |
| FileIO.ImportOne | app/src/main/java/com/frozy/mindmap/FileIO.kt:127-157 | index is i; success iff data is present iff there is no error; success iff the query works, the stream has text, the text is not blank and it parses. A success carries the display name ("" when it is null) and the parsed object. A null stream gives an IOException, blank text a JSONException, and a query or read failure its own error |
| FileIO.GetJsonDataFromUris | app/src/main/java/com/frozy/mindmap/FileIO.kt:122-159 | one result per URI, in input order, with `index == i` at position i |
| MainViewModel.DecodeFile | app/src/main/java/com/frozy/mindmap/MainActivityViewModel.kt:36-52 | the name is the file's and storage is APP. Parsed: the content is the "fileContent" string ("" if absent), the time is "createdAt" or else `lastModified`. Malformed: the raw text and `lastModified` |
| MainViewModel.SavedRecordLoadsBack | app/src/main/java/com/frozy/mindmap/MainActivityViewModel.kt:37-43 | loading a record written by `applyBasicContent` recovers its content and creation time (and marks it APP), given that the library reads back what it writes |
| MainViewModel.Loadable | app/src/main/java/com/frozy/mindmap/MainActivityViewModel.kt:33-35 | a file yields an entry exactly when it exists, can be read and its text is non-empty |
| MainViewModel.LoadEntries | app/src/main/java/com/frozy/mindmap/MainActivityViewModel.kt:32-55 | no more entries than files, and every entry has storage APP |
| MainViewModel.LoadEntriesAppend | app/src/main/java/com/frozy/mindmap/MainActivityViewModel.kt:32-55 | loading a concatenation of listings loads each part, in order |
| MainViewModel.LoadEntriesSingleton | app/src/main/java/com/frozy/mindmap/MainActivityViewModel.kt:33-53 | one file gives exactly its decoding when loadable, and nothing otherwise |
| MainViewModel.LoadEntriesSound | app/src/main/java/com/frozy/mindmap/MainActivityViewModel.kt:32-55 | every collected entry is the decoding of a loadable listed file |
| MainViewModel.LoadEntriesComplete | app/src/main/java/com/frozy/mindmap/MainActivityViewModel.kt:32-55 | every loadable listed file contributes its decoding |
| MainViewModel.LoadEntriesAllLoadable | app/src/main/java/com/frozy/mindmap/MainActivityViewModel.kt:32-55 | when every file is loadable, the i-th entry decodes the i-th file |
| MainViewModel.LoadEntriesSkips | app/src/main/java/com/frozy/mindmap/MainActivityViewModel.kt:35 | a missing, unreadable or empty file adds nothing |
| MainViewModel.InsertByName | app/src/main/java/com/frozy/mindmap/MainActivityViewModel.kt:56 | inserting into a descending list adds exactly that entry and keeps the list descending |
| MainViewModel.SortByNameDescending | app/src/main/java/com/frozy/mindmap/MainActivityViewModel.kt:56 | the result is a permutation of the input, sorted by `fileName` in descending order |
| MainViewModel.SortKeepsSortedList | app/src/main/java/com/frozy/mindmap/MainActivityViewModel.kt:56 | sorting an already descending list changes nothing |
| MainViewModel.MainActivityViewModel.constructor | app/src/main/java/com/frozy/mindmap/MainActivityViewModel.kt:18 | a new view model holds the empty list |
| MainViewModel.MainActivityViewModel.ChangeFileList | app/src/main/java/com/frozy/mindmap/MainActivityViewModel.kt:20 | the list becomes exactly the given value |
| MainViewModel.MainActivityViewModel.InitLoadFiles | app/src/main/java/com/frozy/mindmap/MainActivityViewModel.kt:26-60 | the published list is the sorted decoding of the loadable ".json" files of the listing |
| MainViewModel.LoadedListFacts | app/src/main/java/com/frozy/mindmap/MainActivityViewModel.kt:26-60 | the published list is descending and a permutation of the collected entries (one per loadable file, by the two laws above); each entry is an APP entry decoded from a loadable ".json" file; every loadable file appears |
| MainActivity.CheckIfFileNameIsInvalid | app/src/main/java/com/frozy/mindmap/MainActivity.kt:100-108 | a name passes exactly when it has none of the characters the sanitiser replaces, is not blank and its UTF-16 `length` is at most 16; a passing name has 1 to 16 characters |
| MainActivity.ValidNameIsOnlyTrimmed | app/src/main/java/com/frozy/mindmap/MainActivity.kt:100-108 | a name the check accepts trims to a legal name of 1 to 16 UTF-16 units and is sanitised by trimming and the extension alone |
| MainActivity.TrimmedNameIsLegal | app/src/main/java/com/frozy/mindmap/Extensions.kt:30-33 | trimming a name without illegal characters leaves it without them, so replacement has nothing to do |
| MainActivity.MaxLengthBoundary | app/src/main/java/com/frozy/mindmap/MainActivity.kt:100-108 | for a legal non-blank name, a `length` of 16 is accepted and 17 refused; inside the Basic Multilingual Plane that is 16 characters; nine characters outside it are refused |
| MainActivity.MainScreen.SanitizedFileName | app/src/main/java/com/frozy/mindmap/MainActivity.kt:133-135 | ends with ".json" ignoring case, with no illegal character |
| MainActivity.MainScreen.SanitizedFileNameNoJson | app/src/main/java/com/frozy/mindmap/MainActivity.kt:136-138 | removal of a lower-case ".json" only: adding it back restores the sanitised name |
| MainActivity.SavedTextLoadsBack | app/src/main/java/com/frozy/mindmap/MainActivity.kt:384-389 | the text a save writes (`SavedText`) loads back at start-up with the typed content and the creation time, as APP, given that the library parses what it printed |
| MainActivity.NewEntry | app/src/main/java/com/frozy/mindmap/MainActivity.kt:394-398 | the copy keeps the typed content and takes the given name, storage and time |
| MainActivity.BuildSavedText | app/src/main/java/com/frozy/mindmap/MainActivity.kt:161-167 | the text is the rendering of a fresh object holding just the basic content |
| MainActivity.OnCreateDocumentResult | app/src/main/java/com/frozy/mindmap/MainActivity.kt:153-184 | no URI: nothing changes. A failed write: the list is unchanged. A successful write: exactly one entry is appended to the collected list, named without ".json" and with the selected storage. The document holds the record |
| MainActivity.DeviceEntryName | app/src/main/java/com/frozy/mindmap/MainActivity.kt:136-138 | the listed device name has no illegal character; when the sanitised name ends in lower-case ".json", adding ".json" back gives the name written into the record (for "a.JSON" `removeSuffix` leaves the name as it is) |
| MainActivity.OnConfirm | app/src/main/java/com/frozy/mindmap/MainActivity.kt:375-405 | DEVICE: only the picker is launched, with the sanitised name. APP: the file is written under the first free probe of the sanitised name (the name itself when free), while the record names the sanitised name; on success one APP entry under the unique name is appended, on failure nothing changes. No existing file is ever overwritten |
| MainActivity.ImportEntry | app/src/main/java/com/frozy/mindmap/MainActivity.kt:200-205 | the entry has the result's name and object text, DEVICE storage and the clock time |
| MainActivity.ImportFallbackUnused | app/src/main/java/com/frozy/mindmap/MainActivity.kt:202 | a successful import of a nameless document is listed as "", never under the fallback name |
| MainActivity.SuccessCount | app/src/main/java/com/frozy/mindmap/MainActivity.kt:199 | the number of successes is at most the number of results |
| MainActivity.ImportAsWrittenKeepsLastSuccess | app/src/main/java/com/frozy/mindmap/MainActivity.kt:198-205 | as written (`ListAfterImportAsWritten`): with no success the list is unchanged; otherwise it is the collected list plus the entry of the last success only |
| MainActivity.OnOpenDocumentsResult | app/src/main/java/com/frozy/mindmap/MainActivity.kt:186-224 | the list after the import is the as-written fold over the results of `getJsonDataFromUris` |
| MainActivity.ImportAsWrittenLosesEntries | app/src/main/java/com/frozy/mindmap/MainActivity.kt:198-205 | two successful documents leave one new entry |
| MainActivity.ImportedEntries | app/src/main/java/com/frozy/mindmap/MainActivity.kt:198-205 | one DEVICE entry per successful result |
| MainActivity.ImportedEntriesInOrder | app/src/main/java/com/frozy/mindmap/MainActivity.kt:198-205 | corrected import: the entry of the success at position i is at the position given by the number of successes before i, so entries follow the order of the results |
| MainActivity.OnOpenDocumentsResultAccumulating | app/src/main/java/com/frozy/mindmap/MainActivity.kt:198-205 | corrected import: the old list followed by one entry per successful result |
| MainActivity.ImportedEntriesFacts | app/src/main/java/com/frozy/mindmap/MainActivity.kt:198-205 | corrected import: no success adds nothing, and every success's entry is among those added |
| MainActivity.SavedNameIsListedIgnoringCase | app/src/main/java/com/frozy/mindmap/FileIO.kt:83 | corrected listing: every name an app-storage save can write (the sanitised name or one of its probes) is listed again |
| EditorViewModel.IntInc | app/src/main/java/com/frozy/mindmap/MapEditorViewModel.kt:41 | `nextId++` on `Int`: up by one below the maximum, wrapping to the minimum at it |
| EditorViewModel.CounterCountsUp | app/src/main/java/com/frozy/mindmap/MapEditorViewModel.kt:34-45 | the first 2^31 creations hand out 0, 1, 2, ... |
| EditorViewModel.CounterWraps | app/src/main/java/com/frozy/mindmap/MapEditorViewModel.kt:41 | the creation after 2^31 of them wraps the counter to -2^31 |
| EditorViewModel.EditItem | app/src/main/java/com/frozy/mindmap/MapEditorViewModel.kt:90-92 | only a note with the uuid changes; it keeps its id and the other text and takes the drawn uuid |
| EditorViewModel.EditNotes | app/src/main/java/com/frozy/mindmap/MapEditorViewModel.kt:88-102 | length and order are kept; spaces and other notes are unchanged; the matched note gets the new text, keeps its id and other text, and gets the uuid drawn for it |
| EditorViewModel.EditWithoutMatchChangesNothing | app/src/main/java/com/frozy/mindmap/MapEditorViewModel.kt:90-92 | with no note of that uuid, an edit changes nothing |
| EditorViewModel.SameItem | app/src/main/java/com/frozy/mindmap/MapEditorViewModel.kt:25-53 | Kotlin `equals` on two items (the data classes `Note` and `Space`): they are equal exactly when they agree on everything but the `uuid` held by the base class |
| EditorViewModel.SameUpToUuid | app/src/main/java/com/frozy/mindmap/MapEditorViewModel.kt:22 | `List.equals` on two page lists: equal lists pass, and two lists pass exactly when they have the same length and their items differ in uuid only |
| EditorViewModel.Published | app/src/main/java/com/frozy/mindmap/MapEditorViewModel.kt:89 | assigning to the state flow leaves a value that `equals` the new list; it is the old list, old uuids included, when the two are equal, and the new list otherwise |
| EditorViewModel.EditPublishes | app/src/main/java/com/frozy/mindmap/MapEditorViewModel.kt:88-102 | an edit replaces the list exactly when it changes the text of some note with that uuid; otherwise list and uuids stay as they were |
| EditorViewModel.StaleUuidEditIsLost | app/src/main/java/com/frozy/mindmap/MapEditorViewModel.kt:26 | after an edit that changed the text, `copy` has drawn a new uuid, so a second edit under the old uuid changes nothing |
| EditorViewModel.EditsFollowingFreshUuid | app/src/main/java/com/frozy/mindmap/MapEditorViewModel.kt:88-102 | a title change followed by a content edit under the uuid the note took leaves a note with both texts and its original id; the note takes a second fresh uuid only if the content changed |
| EditorViewModel.MapEditorViewModel.constructor | app/src/main/java/com/frozy/mindmap/MapEditorViewModel.kt:16-21 | editor mode off, empty page list |
| EditorViewModel.MapEditorViewModel.ChangeEditorModeState | app/src/main/java/com/frozy/mindmap/MapEditorViewModel.kt:18 | the flag becomes exactly the value; the pages are untouched |
| EditorViewModel.MapEditorViewModel.ChangePagerList | app/src/main/java/com/frozy/mindmap/MapEditorViewModel.kt:22 | the page list becomes the value as the state flow publishes it (kept when equal); the flag is untouched |
| EditorViewModel.MapEditorViewModel.ChangeNoteTitle | app/src/main/java/com/frozy/mindmap/MapEditorViewModel.kt:88-94 | the page list becomes the title edit of the old one as the state flow publishes it |
| EditorViewModel.MapEditorViewModel.ChangeNoteContent | app/src/main/java/com/frozy/mindmap/MapEditorViewModel.kt:96-102 | the page list becomes the content edit of the old one as the state flow publishes it |
| EditorViewModel.NoteCompanion.constructor | app/src/main/java/com/frozy/mindmap/MapEditorViewModel.kt:34 | the counter starts at 0 |
| EditorViewModel.NoteCompanion.Create | app/src/main/java/com/frozy/mindmap/MapEditorViewModel.kt:36-45 | the note's id is the counter, the counter moves on by one (wrapping), the texts default to "" |
| EditorViewModel.SpaceNodeCompanion.constructor | app/src/main/java/com/frozy/mindmap/MapEditorViewModel.kt:65 | the counter starts at 0 |
| EditorViewModel.SpaceNodeCompanion.Create | app/src/main/java/com/frozy/mindmap/MapEditorViewModel.kt:67-79 | the node's id is its own counter, which moves on by one; the offset defaults to zero, `hasBorder` to true, `text` to "" |
| EditorViewModel.CreateTwoNotes | app/src/main/java/com/frozy/mindmap/MapEditorViewModel.kt:36-45 | two notes from a fresh counter get ids 0 and 1 with empty texts; the space-node counter is a separate object, so it stays as it was |
| Scenarios.SanitizeBlankExample | app/src/main/java/com/frozy/mindmap/Extensions.kt:30 | `"   "` with fallback "Untitled.json" gives "Untitled.json" |
| Scenarios.SanitizeEmptyExample | app/src/main/java/com/frozy/mindmap/Extensions.kt:30 | `""` with fallback "Untitled.json" gives "Untitled.json" |
| Scenarios.SanitizeReplaceExample | app/src/main/java/com/frozy/mindmap/Extensions.kt:33 | "a/b:c" gives "a_b_c.json" |
| Scenarios.SanitizeUpperCaseExample | app/src/main/java/com/frozy/mindmap/Extensions.kt:35-36 | "a.JSON" stays "a.JSON" |
| Scenarios.LongSExtensionKept | app/src/main/java/com/frozy/mindmap/Extensions.kt:35-36 | a name ending in ".j", the long s and "on" already has the extension and is kept; "map.jzon" gets ".json" appended |
| Scenarios.FirstProbeOfUpperCaseName | app/src/main/java/com/frozy/mindmap/FileIO.kt:92-93 | the first probe for "Map.JSON" is "Map.JSON(1).json" |
| Scenarios.SecondProbeOfLowerCaseName | app/src/main/java/com/frozy/mindmap/FileIO.kt:92-93 | the second probe for "Map.json" is "Map(2).json" |
| Scenarios.UniqueNameTwice | app/src/main/java/com/frozy/mindmap/FileIO.kt:88-97 | on an empty directory "Map.json" is free; after saving it, the next answer is "Map(1).json" |
| Scenarios.MixedBatch | app/src/main/java/com/frozy/mindmap/FileIO.kt:122-159 | a good, an empty and a refused document give a success, a JSON failure and a security failure, at indices 0, 1, 2 |
| Scenarios.NineEmojiNameRefused | app/src/main/java/com/frozy/mindmap/MainActivity.kt:104-108 | nine U+1F600 characters have `length` 18 and are refused |
| Scenarios.UpperCaseSaveIsNotReloaded | app/src/main/java/com/frozy/mindmap/FileIO.kt:83 | as written: "a.JSON" passes the check, is saved as "a.JSON" when that name is free, and is dropped by the start-up listing |
| Scenarios.UpperCaseSaveIsListedIgnoringCase | app/src/main/java/com/frozy/mindmap/FileIO.kt:83 | with the corrected filter the same file is listed |
| Scenarios.SixteenLetterNameAccepted | app/src/main/java/com/frozy/mindmap/MainActivity.kt:100-108 | a 16-letter name is valid |
| Scenarios.SeventeenLetterNameRefused | app/src/main/java/com/frozy/mindmap/MainActivity.kt:100-108 | a 17-letter name is invalid |

## Left out

- The Compose UI is not modelled: screens, dialogs, toasts, navigation, theming and `hideSystemStatusBar`. The error-class toast choice in the import callback is presentation only and is left out too.
- The settings screen, its view model and the DataStore declaration are not modelled: they hold no logic.
- Android and JVM I/O become values. These are the directory listing, the `readFails` / `writeSucceeds` / `deleteSucceeds` flags, the URI write outcome, and the per-URI query and stream outcomes.
- A write that fails after part of the text was written is modelled as leaving the store unchanged.
- Failures of `close()` are swallowed by the source and not modelled.
- FileIO.ReadTextFromFileInAppStorage: only the three caught exceptions are modelled, as `readFails`. An exception of another class, such as `openFileInput` refusing a name with a path separator, would propagate in the source.
- Exception messages are not modelled; `ErrorInfo` keeps only the class. A query whose display-name column is missing (`getColumnIndexOrThrow`) is one of the throwing queries.
- The JSON text format is not modelled. `JSONObject(text)`, `toString(2)` and the object's string form are the parameters `parse`, `render` and `toText`.
- Json.OptLong: a numeric string or a non-integral number under the key is treated as "not a number", although Android's `optLong` would convert it.
- Json.OptString: a non-string value is given as its text (a number through its decimal rendering) and not tied to the library's exact formatting.
- Strings.LexLeq: `compareTo` works on UTF-16 code units, while the model compares code points. The two differ only between supplementary characters and U+E000..U+FFFF.
- MainViewModel.SortByNameDescending: stability among equal names is not stated. Names listed from one directory are distinct, so permutation plus order fixes the result.
- Clocks (`System.currentTimeMillis()`) and `UUID.randomUUID()` are parameters. The UUIDs either arrive as values or as a function from list position to drawn value.
- Floats (`Offset`, the pan/zoom camera state) are not modelled. `Offset` stays an opaque packed value.
- Creating `MapItem.Space()` happens in the editor activity and is not part of this model.
- The companion objects' `nextId` counters are global in Kotlin. Here each is a class instance that the caller passes in.
- Kotlin's generated equality for `Note` ignores the `uuid`, because it is not a constructor property. The model compares items that way (`SameItem`) where the source compares them, in the state-flow assignments of the editor. Datatype equality elsewhere in the model includes the uuid.
- The start screen's `_fileList` flow also skips equal values. `FileData` equality is structural, like datatype equality, so `ChangeFileList` simply assigns.
- `OperationResult.index` is an `Int`; wrap-around beyond 2^31 URIs is not modelled.
- Coroutine scheduling is not modelled. Each callback runs to completion in one step, and the collected `fileList` is an explicit argument.
- The `init` block of the main view model launches `initLoadFiles`; the model calls `InitLoadFiles` separately after construction.
- Resource ids (`R.string.*`) are generated by the build; the model uses distinct placeholder integers.

## Findings

| source | as written | input that shows it | evidently intended | confidence | as-written member | corrected member |
|---|---|---|---|---|---|---|
| app/src/main/java/com/frozy/mindmap/MainActivity.kt:198-205 | each successful result sets the list to the collected `fileList` plus its own entry. `fileList` does not change while the loop runs, so each success replaces the previous one | importing two valid documents at once from a list L leaves L plus the second document only | every imported document is appended | medium, not executed | MainActivity.OnOpenDocumentsResult, MainActivity.ImportAsWrittenLosesEntries | MainActivity.OnOpenDocumentsResultAccumulating, MainActivity.ImportedEntriesFacts |
| app/src/main/java/com/frozy/mindmap/FileIO.kt:83 | the start-up listing keeps only names ending in lower-case ".json", while the name check accepts and the sanitiser keeps ".json" in any case (Extensions.kt:35) | a map named "a.JSON" saved to app storage is written as "a.JSON" and is missing from the list on the next start | the listing accepts the extension in any case, like the sanitiser | medium, not executed | Scenarios.UpperCaseSaveIsNotReloaded | FileIO.KeepJsonFilesIgnoringCase, MainActivity.SavedNameIsListedIgnoringCase |
