/**
 * `object FileIO`: the app-private directory, documents behind content
 * URIs, and the batch import of JSON files. The Android file system and
 * content resolver are replaced by a map from names to contents and by
 * per-URI outcomes that the caller supplies.
 */
module FileIO {
  import opened Wrappers
  import opened Strings
  import opened Json

  // ---------------------------------------------------------------------
  // Results
  // ---------------------------------------------------------------------

  /** The throwables the file layer raises or catches, by class. */
  datatype ErrorInfo =
    | JsonException
    | IoException
    | FileNotFoundException
    | SecurityException
    | OtherThrowable

  /** `OperationResult<T>`: whether the operation succeeded, optionally the
      data it produced, the error it ran into and the position it had in a
      batch. */
  datatype OperationResult<T> = OperationResult(
    isSuccess: bool,
    data: Option<T>,
    errorInfo: Option<ErrorInfo>,
    index: Option<int>)

  /** A Kotlin expression that either yields a value or throws. */
  datatype Outcome<T> = Returns(value: T) | Throws(error: ErrorInfo)

  // ---------------------------------------------------------------------
  // Documents behind content URIs
  // ---------------------------------------------------------------------

  /** A content URI handed out by the system document picker. */
  datatype Uri = Uri(text: string)

  /** The documents the content resolver can reach, by URI. */
  class DeviceStorage {
    var documents: map<Uri, string>

    constructor (documents: map<Uri, string>)
      ensures this.documents == documents
    {
      this.documents := documents;
    }
  }

  /** What `openOutputStream(uri)` and the write do on the device: the text
      is written, the resolver hands back no stream, or opening or writing
      throws. */
  datatype UriWriteOutcome = Written | NoOutputStream | WriteThrows

  /** `writeTextToUri`: true unless opening or writing throws. When the
      resolver gives no stream nothing is written and the answer is still
      true. */
  method WriteTextToUri(device: DeviceStorage, uri: Uri, text: string, outcome: UriWriteOutcome)
    returns (ok: bool)
    modifies device
    ensures ok <==> !outcome.WriteThrows?
    ensures outcome.Written? ==> device.documents == old(device.documents)[uri := text]
    ensures !outcome.Written? ==> device.documents == old(device.documents)
  {
    match outcome
    case Written =>
      device.documents := device.documents[uri := text];
      ok := true;
    case NoOutputStream =>
      ok := true;
    case WriteThrows =>
      ok := false;
  }

  // ---------------------------------------------------------------------
  // The app-private directory
  // ---------------------------------------------------------------------

  /** `context.filesDir`: the entries of the app-private directory, by name. */
  class AppStorage {
    var files: map<string, string>

    constructor (files: map<string, string>)
      ensures this.files == files
    {
      this.files := files;
    }
  }

  /** `writeTextToFileInAppStorage`: `writeSucceeds` is whether opening and
      writing the file go through. On success the entry is created or
      replaced; on failure the directory stays as it was. */
  method WriteTextToFileInAppStorage(dir: AppStorage, filename: string, text: string, writeSucceeds: bool)
    returns (ok: bool)
    modifies dir
    ensures ok == writeSucceeds
    ensures ok ==> dir.files == old(dir.files)[filename := text]
    ensures !ok ==> dir.files == old(dir.files)
  {
    if writeSucceeds {
      dir.files := dir.files[filename := text];
    }
    ok := writeSucceeds;
  }

  /** `readTextFromFileInAppStorage`: the entry's text, or null when there is
      no such entry or reading it raises an I/O or security error
      (`readFails`). */
  function ReadTextFromFileInAppStorage(dir: AppStorage, filename: string, readFails: bool): (r: Option<string>)
    reads dir
    ensures filename !in dir.files ==> r == None
    ensures r.Some? ==> filename in dir.files && r.value == dir.files[filename]
    ensures filename in dir.files && !readFails ==> r == Some(dir.files[filename])
  {
    if filename in dir.files && !readFails then Some(dir.files[filename]) else None
  }

  /** An entry of `filesDir.listFiles()`: its name and `lastModified()`. */
  datatype ListedFile = ListedFile(name: string, lastModified: int)

  /** The entries whose name ends with ".json", case-sensitively. */
  function KeepJsonFiles(files: seq<ListedFile>): (r: seq<ListedFile>)
    ensures |r| <= |files|
    ensures forall f :: f in r ==> f in files && EndsWith(f.name, JSON_EXTENSION)
    ensures forall f :: f in files && EndsWith(f.name, JSON_EXTENSION) ==> f in r
    decreases |files|
  {
    if files == [] then []
    else
      var rest := KeepJsonFiles(files[1..]);
      if EndsWith(files[0].name, JSON_EXTENSION) then [files[0]] + rest else rest
  }

  /** `listFilesInAppStorage`: `listing` is what `listFiles()` returns
      (null when the directory cannot be read). */
  function ListFilesInAppStorage(listing: Option<seq<ListedFile>>): (r: seq<ListedFile>)
    ensures listing.None? ==> r == []
    ensures listing.Some? ==> r == KeepJsonFiles(listing.value)
  {
    match listing
    case None => []
    case Some(files) => KeepJsonFiles(files)
  }

  /** The listing filter as evidently intended: ".json" in any case, the test
      the name sanitiser applies before saving. */
  function KeepJsonFilesIgnoringCase(files: seq<ListedFile>): (r: seq<ListedFile>)
    ensures |r| <= |files|
    ensures forall f :: f in r ==> f in files && EndsWithJsonIgnoringCase(f.name)
    ensures forall f :: f in files && EndsWithJsonIgnoringCase(f.name) ==> f in r
    ensures forall f :: f in KeepJsonFiles(files) ==> f in r
    decreases |files|
  {
    if files == [] then []
    else
      var rest := KeepJsonFilesIgnoringCase(files[1..]);
      if EndsWithJsonIgnoringCase(files[0].name) then [files[0]] + rest else rest
  }

  /** `listFilesInAppStorage` with the corrected filter. */
  function ListFilesInAppStorageIgnoringCase(listing: Option<seq<ListedFile>>): (r: seq<ListedFile>)
    ensures listing.None? ==> r == []
    ensures listing.Some? ==> forall f :: f in r <==> f in listing.value && EndsWithJsonIgnoringCase(f.name)
  {
    match listing
    case None => []
    case Some(files) => KeepJsonFilesIgnoringCase(files)
  }

  /** The filter keeps listing order: filtering a concatenation filters each
      part. */
  lemma {:induction false} KeepJsonFilesAppend(a: seq<ListedFile>, b: seq<ListedFile>)
    ensures KeepJsonFiles(a + b) == KeepJsonFiles(a) + KeepJsonFiles(b)
    decreases |a|
  {
    if a != [] {
      var ab := a + b;
      assert ab[0] == a[0] && ab[1..] == a[1..] + b;
      KeepJsonFilesAppend(a[1..], b);
    } else {
      assert a + b == b;
    }
  }

  /** A listing that has only ".json" entries is returned as it is. */
  lemma {:induction false} KeepJsonFilesIdentity(files: seq<ListedFile>)
    requires forall i :: 0 <= i < |files| ==> EndsWith(files[i].name, JSON_EXTENSION)
    ensures KeepJsonFiles(files) == files
    decreases |files|
  {
    if files != [] {
      KeepJsonFilesIdentity(files[1..]);
    }
  }

  // ---------------------------------------------------------------------
  // makeUniqueFilename
  // ---------------------------------------------------------------------

  /** The k-th name `makeUniqueFilename` probes: the base name itself, then
      "name(k).json" with the (case-sensitive) ".json" of the base removed. */
  function Candidate(baseName: string, k: nat): (r: string)
    ensures k > 0 ==> EndsWith(r, JSON_EXTENSION)
  {
    if k == 0 then baseName
    else RemoveSuffix(baseName, JSON_EXTENSION) + "(" + NatToString(k) + ")" + JSON_EXTENSION
  }

  /** No two probes coincide. */
  lemma CandidatesDistinct(baseName: string, i: nat, j: nat)
    requires i != j
    ensures Candidate(baseName, i) != Candidate(baseName, j)
  {
    if i == 0 {
      ProbeIsNotBase(baseName, j);
    } else if j == 0 {
      ProbeIsNotBase(baseName, i);
    } else {
      NumberedProbesDistinct(baseName, i, j);
    }
  }

  /** A numbered probe is longer than the base name. */
  lemma ProbeIsNotBase(baseName: string, k: nat)
    requires k > 0
    ensures |Candidate(baseName, k)| > |baseName|
  {
    var stem := RemoveSuffix(baseName, JSON_EXTENSION);
    assert |stem| + 5 >= |baseName|;
    assert |Candidate(baseName, k)| == |stem| + 1 + |NatToString(k)| + 1 + 5;
  }

  /** Two numbered probes differ, because their numbers render differently. */
  lemma NumberedProbesDistinct(baseName: string, i: nat, j: nat)
    requires 0 < i && 0 < j && i != j
    ensures Candidate(baseName, i) != Candidate(baseName, j)
  {
    var stem := RemoveSuffix(baseName, JSON_EXTENSION);
    var a, b := Candidate(baseName, i), Candidate(baseName, j);
    var di, dj := NatToString(i), NatToString(j);
    assert a == stem + "(" + di + ")" + JSON_EXTENSION;
    assert b == stem + "(" + dj + ")" + JSON_EXTENSION;
    if |di| == |dj| {
      assert di == a[|stem| + 1..|stem| + 1 + |di|];
      assert dj == b[|stem| + 1..|stem| + 1 + |dj|];
      assert di != dj;
    }
  }

  /** When the first n probes all name existing entries, there are at least
      n entries. */
  lemma {:induction false} CandidatesBound(baseName: string, n: nat, names: set<string>)
    requires forall j :: 0 <= j < n ==> Candidate(baseName, j) in names
    ensures n <= |names|
    decreases n
  {
    if n > 0 {
      var last := Candidate(baseName, n - 1);
      var rest := names - {last};
      forall j | 0 <= j < n - 1
        ensures Candidate(baseName, j) in rest
      {
        CandidatesDistinct(baseName, j, n - 1);
      }
      CandidatesBound(baseName, n - 1, rest);
    }
  }

  /** `makeUniqueFilename(dir, baseName)`: probes the candidates in order
      and returns the first that names no entry. The loop ends because the n
      probes that precede the answer are distinct existing names, so n is
      at most the number of entries. */
  method MakeUniqueFilename(dir: AppStorage, baseName: string) returns (candidate: string)
    ensures candidate !in dir.files
    ensures baseName !in dir.files ==> candidate == baseName
    ensures exists k: nat ::
      (candidate == Candidate(baseName, k) && forall j :: 0 <= j < k ==> Candidate(baseName, j) in dir.files)
  {
    candidate := baseName;
    var index: nat := 1;
    while candidate in dir.files
      invariant candidate == Candidate(baseName, index - 1)
      invariant forall j :: 0 <= j < index - 1 ==> Candidate(baseName, j) in dir.files
      decreases |dir.files.Keys| + 1 - index
    {
      CandidatesBound(baseName, index, dir.files.Keys);
      var nameWithoutExt := RemoveSuffix(baseName, JSON_EXTENSION);
      candidate := nameWithoutExt + "(" + NatToString(index) + ")" + JSON_EXTENSION;
      index := index + 1;
    }
  }

  // ---------------------------------------------------------------------
  // deleteFileInAppStorage
  // ---------------------------------------------------------------------

  /** `deleteFileInAppStorage`: `file.exists() && file.delete()`, where
      `deleteSucceeds` is whether the file system carries out the deletion. */
  method DeleteFileInAppStorage(dir: AppStorage, filename: string, deleteSucceeds: bool)
    returns (deleted: bool)
    modifies dir
    ensures deleted <==> filename in old(dir.files) && deleteSucceeds
    ensures deleted ==> dir.files == old(dir.files) - {filename}
    ensures !deleted ==> dir.files == old(dir.files)
  {
    var present := filename in dir.files;
    deleted := present && deleteSucceeds;
    if deleted {
      dir.files := dir.files - {filename};
    }
  }

  // ---------------------------------------------------------------------
  // getFileNameFromUri, getJsonDataFromUris
  // ---------------------------------------------------------------------

  /** What the display-name query on a URI gives: it throws, returns no
      cursor, returns a cursor with no row, or returns a row whose
      DISPLAY_NAME column may be null. */
  datatype DisplayNameQuery =
    | QueryThrows(error: ErrorInfo)
    | NoCursor
    | NoRow
    | Row(displayName: Option<string>)

  /** `getFileNameFromUri`: the display name, or null. */
  function GetFileNameFromUri(query: DisplayNameQuery): (r: Outcome<Option<string>>)
    ensures r.Throws? <==> query.QueryThrows?
    ensures query.Row? ==> r == Returns(query.displayName)
    ensures query.NoCursor? || query.NoRow? ==> r == Returns(None)
  {
    match query
    case QueryThrows(e) => Throws(e)
    case NoCursor => Returns(None)
    case NoRow => Returns(None)
    case Row(name) => Returns(name)
  }

  /** What opening and reading the URI's input stream gives. */
  datatype StreamRead = NullStream | ReadThrows(error: ErrorInfo) | Text(raw: string)

  /** Everything the content resolver answers about one URI. */
  datatype UriSource = UriSource(query: DisplayNameQuery, stream: StreamRead)

  /** `if (fileName.isNullOrEmpty()) fileName = ""`: a null name becomes "",
      any other name is kept. */
  function NameOrEmpty(name: Option<string>): (r: string)
    ensures r == "" <==> name.None? || name.value == ""
    ensures name.Some? ==> r == name.value
  {
    match name
    case None => ""
    case Some(n) => n
  }

  function Failure<T>(error: ErrorInfo, index: nat): OperationResult<T>
  {
    OperationResult(false, None, Some(error), Some(index))
  }

  /** The body of `mapIndexed` in `getJsonDataFromUris` for the URI at
      `index`; `parse` is `JSONObject(text)`, null where it throws. Every
      throwable is caught and becomes a failed result. */
  function ImportOne(index: nat, source: UriSource, parse: string -> Option<JsonFields>)
    : (r: OperationResult<(string, JsonFields)>)
    ensures r.index == Some(index)
    ensures r.isSuccess <==> r.data.Some?
    ensures r.isSuccess <==> r.errorInfo.None?
    ensures r.isSuccess <==>
      && !source.query.QueryThrows?
      && source.stream.Text?
      && !IsBlank(source.stream.raw)
      && parse(source.stream.raw).Some?
    ensures r.isSuccess ==> r.data.value.1 == parse(source.stream.raw).value
    ensures r.isSuccess && source.query.Row? && source.query.displayName.Some?
      ==> r.data.value.0 == source.query.displayName.value
    ensures r.isSuccess && !(source.query.Row? && source.query.displayName.Some?)
      ==> r.data.value.0 == ""
    ensures source.query.QueryThrows? ==> r.errorInfo == Some(source.query.error)
    ensures !source.query.QueryThrows? && source.stream.NullStream? ==> r.errorInfo == Some(IoException)
    ensures !source.query.QueryThrows? && source.stream.ReadThrows? ==> r.errorInfo == Some(source.stream.error)
    ensures !source.query.QueryThrows? && source.stream.Text? && IsBlank(source.stream.raw)
      ==> r.errorInfo == Some(JsonException)
  {
    match GetFileNameFromUri(source.query)
    case Throws(e) => Failure(e, index)
    case Returns(name) =>
      var fileName := NameOrEmpty(name);
      match source.stream
      case NullStream => Failure(IoException, index)
      case ReadThrows(e) => Failure(e, index)
      case Text(raw) =>
        if IsBlank(raw) then Failure(JsonException, index)
        else match parse(raw)
          case None => Failure(JsonException, index)
          case Some(obj) => OperationResult(true, Some((fileName, obj)), None, Some(index))
  }

  /** `getJsonDataFromUris`: one result per URI, in order. */
  function GetJsonDataFromUris(uris: seq<UriSource>, parse: string -> Option<JsonFields>)
    : (r: seq<OperationResult<(string, JsonFields)>>)
    ensures |r| == |uris|
    ensures forall i :: 0 <= i < |r| ==> r[i].index == Some(i)
    ensures forall i :: 0 <= i < |r| ==> r[i] == ImportOne(i, uris[i], parse)
  {
    seq(|uris|, i requires 0 <= i < |uris| => ImportOne(i, uris[i], parse))
  }
}
