/**
 * The file-list logic of the start screen (`MainActivityUI`): the map-name
 * check, the callback of the "create document" picker (device storage),
 * the confirm action of the create dialog (app storage) and the callback of
 * the "open documents" picker (import). Each callback is a method on the
 * view model and the stores it touches; `fileList` is the list the screen
 * collected from the view model when it was last composed.
 */
module MainActivity {
  import opened Wrappers
  import opened Strings
  import opened Json
  import opened Classes
  import opened Extensions
  import opened FileIO
  import opened MainViewModel

  // ---------------------------------------------------------------------
  // checkIfFileNameIsInvalid
  // ---------------------------------------------------------------------

  const MAX_MAP_NAME_LENGTH: nat := 16

  /** `checkIfFileNameIsInvalid`: an illegal character, a blank name, or a
      `length` over 16, where `length` counts UTF-16 code units (a character
      outside the Basic Multilingual Plane counts twice). A name passes
      exactly when it has none of the characters the sanitiser replaces, is
      not blank and fits the bound. */
  predicate CheckIfFileNameIsInvalid(s: string)
    ensures !CheckIfFileNameIsInvalid(s) <==>
      HasNoIllegalChar(s) && !IsBlank(s) && Utf16Length(s) <= MAX_MAP_NAME_LENGTH
    ensures !CheckIfFileNameIsInvalid(s) ==> 0 < |s| <= MAX_MAP_NAME_LENGTH
  {
    || (exists i :: 0 <= i < |s| && s[i] in ILLEGAL_FILE_NAME_CHARS)
    || IsBlank(s)
    || Utf16Length(s) > MAX_MAP_NAME_LENGTH
  }

  /** A name the dialog accepts goes through sanitising with only its outer
      whitespace removed: no character is replaced and the fallback is never
      used. */
  lemma ValidNameIsOnlyTrimmed(s: string, fallbackString: string)
    requires !CheckIfFileNameIsInvalid(s)
    ensures var t := Trim(s);
      && 0 < |t| <= Utf16Length(t) <= MAX_MAP_NAME_LENGTH
      && HasNoIllegalChar(t)
      && SanitizeAndEnsureJsonExtension(s, fallbackString) == EnsureJsonExtension(t)
  {
    var t := Trim(s);
    TrimShortens(s);
    TrimmedNameIsLegal(s);
    assert TrimmedOrFallback(s, fallbackString) == t;
    ReplaceIdentityWithoutIllegal(t);
  }

  /** Trimming keeps a name free of illegal characters. */
  lemma TrimmedNameIsLegal(s: string)
    requires HasNoIllegalChar(s)
    ensures HasNoIllegalChar(Trim(s))
  {
    var t := Trim(s);
    TrimKeepsCharacters(s);
    forall i | 0 <= i < |t| ensures !IsIllegalFileNameChar(t[i]) {
      var j :| 0 <= j < |s| && s[j] == t[i];
    }
  }

  /** The length bound is inclusive and counts UTF-16 units: a legal
      non-blank name of 16 units is accepted, one of 17 is refused. For a
      name inside the Basic Multilingual Plane units and characters agree;
      a name of nine characters outside it (18 units) is refused. */
  lemma MaxLengthBoundary(s: string)
    requires HasNoIllegalChar(s) && !IsBlank(s)
    ensures Utf16Length(s) == MAX_MAP_NAME_LENGTH ==> !CheckIfFileNameIsInvalid(s)
    ensures Utf16Length(s) == MAX_MAP_NAME_LENGTH + 1 ==> CheckIfFileNameIsInvalid(s)
    ensures (forall i :: 0 <= i < |s| ==> (s[i] as int) < 0x10000) ==>
      (!CheckIfFileNameIsInvalid(s) <==> |s| <= MAX_MAP_NAME_LENGTH)
    ensures |s| == 9 && (forall i :: 0 <= i < |s| ==> (s[i] as int) >= 0x10000) ==> CheckIfFileNameIsInvalid(s)
  {
    if |s| == 9 && (forall i :: 0 <= i < |s| ==> (s[i] as int) >= 0x10000) {
      Utf16LengthSupplementary(s);
    }
  }

  // ---------------------------------------------------------------------
  // Screen state
  // ---------------------------------------------------------------------

  /** The state the callbacks read: the dialog's `currentFileData`, the
      selected storage and the two default map names. */
  datatype MainScreen = MainScreen(
    currentFileData: FileData,
    selectedStorage: StorageOption,
    fallbackString: string,
    fallbackStringNoJson: string)
  {
    /** `sanitizedFileName`, derived from the typed name. */
    function SanitizedFileName(): (r: string)
      ensures EndsWithJsonIgnoringCase(r) && HasNoIllegalChar(r)
    {
      SanitizeAndEnsureJsonExtension(currentFileData.fileName, fallbackString)
    }

    /** `sanitizedFileNameNoJson`: the sanitised name without a lower-case
        ".json". */
    function SanitizedFileNameNoJson(): (r: string)
      ensures EndsWith(SanitizedFileName(), JSON_EXTENSION) ==> r + JSON_EXTENSION == SanitizedFileName()
      ensures !EndsWith(SanitizedFileName(), JSON_EXTENSION) ==> r == SanitizedFileName()
    {
      RemoveSuffix(SanitizedFileName(), JSON_EXTENSION)
    }
  }

  /** The text a save writes: a fresh object with the basic content, printed
      by `render` (`toString(2)`). `createdAt` is the clock reading taken
      inside `applyBasicContent`. */
  function SavedText(fileName: string, storage: StorageOption, current: FileData, createdAt: int,
                     render: JsonFields -> string): string
  {
    render(WithBasicContent(map[], fileName, storage, current, createdAt))
  }

  /** What a save writes is what the start-up load reads back: the typed
      content and the creation time, whatever storage was selected, provided
      the JSON library parses what it printed. */
  lemma SavedTextLoadsBack(f: ListedFile, fileName: string, storage: StorageOption, current: FileData,
                           createdAt: int, render: JsonFields -> string, parse: string -> Option<JsonFields>)
    requires var saved := WithBasicContent(map[], fileName, storage, current, createdAt);
      parse(render(saved)) == Some(saved)
    ensures DecodeFile(f, SavedText(fileName, storage, current, createdAt, render), parse)
      == FileData(f.name, current.fileContent, APP, createdAt)
  {
    SavedRecordLoadsBack(f, map[], fileName, storage, current, createdAt, render, parse);
  }

  /** `currentFileData.copy(fileName = .., storage = .., timeStampID = now)`. */
  function NewEntry(current: FileData, fileName: string, storage: StorageOption, now: int): (r: FileData)
    ensures r.fileContent == current.fileContent
    ensures r.fileName == fileName && r.storage == storage && r.timeStampID == now
  {
    current.(fileName := fileName, storage := storage, timeStampID := now)
  }

  /** `JSONObject().applyBasicContent(...).toString(2)`. */
  method BuildSavedText(fileName: string, storage: StorageOption, current: FileData, createdAt: int,
                        render: JsonFields -> string) returns (jsonText: string)
    ensures jsonText == SavedText(fileName, storage, current, createdAt, render)
  {
    var obj := new JsonObject();
    obj := ApplyBasicContent(obj, fileName, storage, current, createdAt);
    jsonText := render(obj.fields);
  }

  // ---------------------------------------------------------------------
  // Saving to a document the user picks (device storage)
  // ---------------------------------------------------------------------

  /** The `createDocumentLauncher` callback. `uri` is the picked document
      (null when the picker is cancelled) and `outcome` what writing to it
      does. On a successful write the list becomes the collected `fileList`
      plus one entry named without ".json". */
  method OnCreateDocumentResult(
    vm: MainActivityViewModel, device: DeviceStorage, screen: MainScreen, fileList: seq<FileData>,
    uri: Option<Uri>, outcome: UriWriteOutcome, render: JsonFields -> string, createdAt: int, now: int)
    modifies vm, device
    ensures uri.None? ==> vm.fileList == old(vm.fileList) && device.documents == old(device.documents)
    ensures uri.Some? && outcome.Written? ==> device.documents == old(device.documents)[uri.value :=
      SavedText(screen.SanitizedFileName(), screen.selectedStorage, screen.currentFileData, createdAt, render)]
    ensures uri.Some? && !outcome.Written? ==> device.documents == old(device.documents)
    ensures uri.Some? && !outcome.WriteThrows? ==>
      vm.fileList == fileList + [NewEntry(screen.currentFileData, screen.SanitizedFileNameNoJson(), screen.selectedStorage, now)]
    ensures uri.Some? && outcome.WriteThrows? ==> vm.fileList == old(vm.fileList)
  {
    if uri.None? {
      return;
    }
    var entry := NewEntry(screen.currentFileData, screen.SanitizedFileNameNoJson(), screen.selectedStorage, now);
    var jsonText := BuildSavedText(screen.SanitizedFileName(), screen.selectedStorage,
                                   screen.currentFileData, createdAt, render);
    var isWriteSuccessful := WriteTextToUri(device, uri.value, jsonText, outcome);
    if isWriteSuccessful {
      vm.ChangeFileList(fileList + [entry]);
    }
  }

  /** The name a device entry is listed under has no illegal character, and
      adding ".json" back gives the name written into the document whenever
      that ends in lower-case ".json". */
  lemma DeviceEntryName(screen: MainScreen)
    ensures HasNoIllegalChar(screen.SanitizedFileNameNoJson())
    ensures EndsWith(screen.SanitizedFileName(), JSON_EXTENSION)
      ==> screen.SanitizedFileNameNoJson() + JSON_EXTENSION == screen.SanitizedFileName()
  {
    var full := screen.SanitizedFileName();
    var short := screen.SanitizedFileNameNoJson();
    if EndsWith(full, JSON_EXTENSION) {
      forall i | 0 <= i < |short| ensures !IsIllegalFileNameChar(short[i]) {
        assert short[i] == (short + JSON_EXTENSION)[i] == full[i];
      }
    }
  }

  // ---------------------------------------------------------------------
  // The create dialog's confirm action
  // ---------------------------------------------------------------------

  /** `onConfirm` of the create dialog. With device storage it opens the
      document picker with the sanitised name as suggestion (returned in
      `suggestedName`) and changes nothing else. With app storage it picks a
      name no entry has (`uniqueFileName`), writes the record there (the
      record itself names the sanitised file, not the unique one) and on
      success appends an APP entry under the unique name. */
  method OnConfirm(
    vm: MainActivityViewModel, dir: AppStorage, screen: MainScreen, fileList: seq<FileData>,
    writeSucceeds: bool, render: JsonFields -> string, createdAt: int, now: int)
    returns (suggestedName: Option<string>, uniqueFileName: Option<string>)
    modifies vm, dir
    ensures screen.selectedStorage == DEVICE ==>
      && suggestedName == Some(screen.SanitizedFileName()) && uniqueFileName == None
      && vm.fileList == old(vm.fileList) && dir.files == old(dir.files)
    ensures screen.selectedStorage == APP ==> suggestedName == None && uniqueFileName.Some?
    ensures screen.selectedStorage == APP ==>
      var u := uniqueFileName.value;
      && u !in old(dir.files)
      && (screen.SanitizedFileName() !in old(dir.files) ==> u == screen.SanitizedFileName())
      && (exists k: nat :: (u == Candidate(screen.SanitizedFileName(), k)
            && forall j :: 0 <= j < k ==> Candidate(screen.SanitizedFileName(), j) in old(dir.files)))
      && (writeSucceeds ==>
            && dir.files == old(dir.files)[u := SavedText(screen.SanitizedFileName(), APP, screen.currentFileData, createdAt, render)]
            && vm.fileList == fileList + [NewEntry(screen.currentFileData, u, APP, now)])
      && (!writeSucceeds ==> dir.files == old(dir.files) && vm.fileList == old(vm.fileList))
    ensures forall n :: n in old(dir.files) ==> n in dir.files && dir.files[n] == old(dir.files)[n]
  {
    if screen.selectedStorage == DEVICE {
      suggestedName := Some(screen.SanitizedFileName());
      uniqueFileName := None;
    } else {
      suggestedName := None;
      var unique := MakeUniqueFilename(dir, screen.SanitizedFileName());
      uniqueFileName := Some(unique);
      var jsonText := BuildSavedText(screen.SanitizedFileName(), screen.selectedStorage,
                                     screen.currentFileData, createdAt, render);
      var isWriteSuccessful := WriteTextToFileInAppStorage(dir, unique, jsonText, writeSucceeds);
      if isWriteSuccessful {
        vm.ChangeFileList(fileList + [NewEntry(screen.currentFileData, unique, APP, now)]);
      }
    }
  }

  // ---------------------------------------------------------------------
  // Importing documents
  // ---------------------------------------------------------------------

  /** The entry an import adds for a successful result:
      `FileData(fileName = data?.first ?: fallbackStringNoJson,
      fileContent = data?.second ?: JSONObject())`, the object standing for
      its text `toText`, with the default DEVICE storage and the clock
      reading `time` as timestamp. */
  function ImportEntry(result: OperationResult<(string, JsonFields)>, screen: MainScreen,
                       toText: JsonFields -> string, time: int): (r: FileData)
    ensures r.storage == DEVICE && r.timeStampID == time
    ensures result.data.Some? ==> r.fileName == result.data.value.0 && r.fileContent == toText(result.data.value.1)
    ensures result.data.None? ==> r.fileName == screen.fallbackStringNoJson && r.fileContent == toText(map[])
  {
    match result.data
    case Some(pair) => FileData(pair.0, toText(pair.1), DEVICE, time)
    case None => FileData(screen.fallbackStringNoJson, toText(map[]), DEVICE, time)
  }

  /** A successful import result always carries data, so the fallback name
      is never used: a nameless document is listed as "". */
  lemma ImportFallbackUnused(i: nat, source: UriSource, parse: string -> Option<JsonFields>,
                             screen: MainScreen, toText: JsonFields -> string, time: int)
    requires ImportOne(i, source, parse).isSuccess
    requires !source.query.Row? || source.query.displayName.None?
    ensures ImportEntry(ImportOne(i, source, parse), screen, toText, time).fileName == ""
  {
  }

  /** The number of successful results. */
  function SuccessCount(results: seq<OperationResult<(string, JsonFields)>>): (n: nat)
    ensures n <= |results|
  {
    if results == [] then 0
    else SuccessCount(results[..|results| - 1]) + (if results[|results| - 1].isSuccess then 1 else 0)
  }

  /** The list after the `forEach` over the first `n` results as written:
      each success sets the list to the collected `snapshot` plus its own
      entry, so only the last success survives. `before` is the list when
      the loop starts and `clock(i)` the time the entry for result i is
      made. */
  function ListAfterImportAsWritten(
    before: seq<FileData>, snapshot: seq<FileData>, results: seq<OperationResult<(string, JsonFields)>>,
    n: nat, screen: MainScreen, toText: JsonFields -> string, clock: nat -> int): seq<FileData>
    requires n <= |results|
    decreases n
  {
    if n == 0 then before
    else if results[n - 1].isSuccess then snapshot + [ImportEntry(results[n - 1], screen, toText, clock(n - 1))]
    else ListAfterImportAsWritten(before, snapshot, results, n - 1, screen, toText, clock)
  }

  /** Without a success the list stays as it was; otherwise it is the
      collected list plus the entry of the last success alone. */
  lemma {:induction false} ImportAsWrittenKeepsLastSuccess(
    before: seq<FileData>, snapshot: seq<FileData>, results: seq<OperationResult<(string, JsonFields)>>,
    n: nat, screen: MainScreen, toText: JsonFields -> string, clock: nat -> int)
    requires n <= |results|
    ensures (forall j :: 0 <= j < n ==> !results[j].isSuccess) ==>
      ListAfterImportAsWritten(before, snapshot, results, n, screen, toText, clock) == before
    ensures forall i :: (0 <= i < n && results[i].isSuccess && (forall j :: i < j < n ==> !results[j].isSuccess)
      ==> ListAfterImportAsWritten(before, snapshot, results, n, screen, toText, clock)
            == snapshot + [ImportEntry(results[i], screen, toText, clock(i))])
    decreases n
  {
    if n > 0 && !results[n - 1].isSuccess {
      ImportAsWrittenKeepsLastSuccess(before, snapshot, results, n - 1, screen, toText, clock);
    }
  }

  /** The `openMultipleDocumentsLauncher` callback as written: reads the
      picked documents and, for each successful result in turn, replaces the
      list by the collected `fileList` plus that result's entry. Failed
      results only raise a toast. */
  method OnOpenDocumentsResult(
    vm: MainActivityViewModel, screen: MainScreen, fileList: seq<FileData>, uris: seq<UriSource>,
    parse: string -> Option<JsonFields>, toText: JsonFields -> string, clock: nat -> int)
    modifies vm
    ensures vm.fileList == ListAfterImportAsWritten(old(vm.fileList), fileList,
      GetJsonDataFromUris(uris, parse), |uris|, screen, toText, clock)
  {
    var operationResultList := GetJsonDataFromUris(uris, parse);
    var i := 0;
    while i < |operationResultList|
      invariant 0 <= i <= |operationResultList|
      invariant vm.fileList == ListAfterImportAsWritten(old(vm.fileList), fileList, operationResultList, i,
        screen, toText, clock)
    {
      var result := operationResultList[i];
      if result.isSuccess {
        vm.ChangeFileList(fileList + [ImportEntry(result, screen, toText, clock(i))]);
      }
      i := i + 1;
    }
  }

  /** Two documents imported together leave one new entry: the first is
      overwritten by the second. */
  lemma ImportAsWrittenLosesEntries(
    before: seq<FileData>, results: seq<OperationResult<(string, JsonFields)>>,
    screen: MainScreen, toText: JsonFields -> string, clock: nat -> int)
    requires |results| == 2 && results[0].isSuccess && results[1].isSuccess
    ensures SuccessCount(results) == 2
    ensures ListAfterImportAsWritten(before, before, results, 2, screen, toText, clock)
      == before + [ImportEntry(results[1], screen, toText, clock(1))]
    ensures |ListAfterImportAsWritten(before, before, results, 2, screen, toText, clock)|
      < |before| + SuccessCount(results)
  {
    assert results[..1][..0] == [];
  }

  /** The entries of the successful results among the first `n`, in order. */
  function ImportedEntries(
    results: seq<OperationResult<(string, JsonFields)>>, n: nat,
    screen: MainScreen, toText: JsonFields -> string, clock: nat -> int): (r: seq<FileData>)
    requires n <= |results|
    ensures |r| == SuccessCount(results[..n])
    ensures forall k :: 0 <= k < |r| ==> r[k].storage == DEVICE
    decreases n
  {
    if n == 0 then []
    else
      var rest := ImportedEntries(results, n - 1, screen, toText, clock);
      assert results[..n][..n - 1] == results[..n - 1];
      if results[n - 1].isSuccess then rest + [ImportEntry(results[n - 1], screen, toText, clock(n - 1))]
      else rest
  }

  /** Counting the successes one more result at a time. */
  lemma SuccessCountStep(results: seq<OperationResult<(string, JsonFields)>>, i: nat)
    requires i < |results|
    ensures SuccessCount(results[..i + 1]) == SuccessCount(results[..i]) + (if results[i].isSuccess then 1 else 0)
  {
    assert results[..i + 1][..i] == results[..i];
  }

  /** A longer prefix has at least as many successes. */
  lemma {:induction false} SuccessCountMonotonic(results: seq<OperationResult<(string, JsonFields)>>, i: nat, m: nat)
    requires i <= m <= |results|
    ensures SuccessCount(results[..i]) <= SuccessCount(results[..m])
    decreases m - i
  {
    if i < m {
      SuccessCountStep(results, i);
      SuccessCountMonotonic(results, i + 1, m);
    }
  }

  /** The entries come in the order of the results: the entry of the success
      at position i, preceded by `SuccessCount(results[..i])` earlier
      successes, is at that position of the imported entries. */
  lemma {:induction false} ImportedEntriesInOrder(
    results: seq<OperationResult<(string, JsonFields)>>, n: nat, i: nat,
    screen: MainScreen, toText: JsonFields -> string, clock: nat -> int)
    requires i < n <= |results| && results[i].isSuccess
    ensures SuccessCount(results[..i]) < |ImportedEntries(results, n, screen, toText, clock)|
    ensures ImportedEntries(results, n, screen, toText, clock)[SuccessCount(results[..i])]
      == ImportEntry(results[i], screen, toText, clock(i))
    decreases n
  {
    var rest := ImportedEntries(results, n - 1, screen, toText, clock);
    SuccessCountStep(results, i);
    if i < n - 1 {
      SuccessCountMonotonic(results, i + 1, n - 1);
      ImportedEntriesInOrder(results, n - 1, i, screen, toText, clock);
    }
  }

  /** The import as evidently intended: each success is appended to the list
      as it stands, so every imported document is kept. */
  method OnOpenDocumentsResultAccumulating(
    vm: MainActivityViewModel, screen: MainScreen, uris: seq<UriSource>,
    parse: string -> Option<JsonFields>, toText: JsonFields -> string, clock: nat -> int)
    modifies vm
    ensures vm.fileList == old(vm.fileList) + ImportedEntries(GetJsonDataFromUris(uris, parse), |uris|, screen, toText, clock)
  {
    var operationResultList := GetJsonDataFromUris(uris, parse);
    var i := 0;
    while i < |operationResultList|
      invariant 0 <= i <= |operationResultList|
      invariant vm.fileList == old(vm.fileList) + ImportedEntries(operationResultList, i, screen, toText, clock)
    {
      var result := operationResultList[i];
      if result.isSuccess {
        vm.ChangeFileList(vm.fileList + [ImportEntry(result, screen, toText, clock(i))]);
      }
      i := i + 1;
    }
  }

  /** The intended import keeps the old list as a prefix and adds exactly one
      entry per successful result; a batch with no success changes
      nothing. */
  lemma {:induction false} ImportedEntriesFacts(
    results: seq<OperationResult<(string, JsonFields)>>, n: nat,
    screen: MainScreen, toText: JsonFields -> string, clock: nat -> int)
    requires n <= |results|
    ensures (forall j :: 0 <= j < n ==> !results[j].isSuccess) ==> ImportedEntries(results, n, screen, toText, clock) == []
    ensures forall i :: 0 <= i < n && results[i].isSuccess ==>
      ImportEntry(results[i], screen, toText, clock(i)) in ImportedEntries(results, n, screen, toText, clock)
    decreases n
  {
    if n > 0 {
      ImportedEntriesFacts(results, n - 1, screen, toText, clock);
    }
  }

  // ---------------------------------------------------------------------
  // An upper-case extension
  // ---------------------------------------------------------------------

  /** Corrected: with the listing filter ignoring case like the extension
      test does, every name a save can write (the sanitised name or one of
      its numbered probes) is listed again. */
  lemma SavedNameIsListedIgnoringCase(screen: MainScreen, k: nat, listing: seq<ListedFile>, lastModified: int)
    requires ListedFile(Candidate(screen.SanitizedFileName(), k), lastModified) in listing
    ensures ListedFile(Candidate(screen.SanitizedFileName(), k), lastModified)
      in ListFilesInAppStorageIgnoringCase(Some(listing))
  {
    var u := Candidate(screen.SanitizedFileName(), k);
    assert EndsWithJsonIgnoringCase(u);
  }
}
