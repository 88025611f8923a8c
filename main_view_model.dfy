/**
 * `MainActivityViewModel`: the list of map files shown on the start screen,
 * and the start-up load that fills it from the app-private directory.
 */
module MainViewModel {
  import opened Wrappers
  import opened Strings
  import opened Json
  import opened Classes
  import opened FileIO
  import Extensions

  // ---------------------------------------------------------------------
  // Decoding one file
  // ---------------------------------------------------------------------

  /** The entry `initLoadFiles` makes for a listed file whose text is
      `text`. `parse` is `JSONObject(text)`, null where it throws
      `JSONException`. A parsed file takes its content from "fileContent"
      and its time from "createdAt"; malformed JSON keeps the raw text. */
  function DecodeFile(f: ListedFile, text: string, parse: string -> Option<JsonFields>): (r: FileData)
    ensures r.fileName == f.name && r.storage == APP
    ensures parse(text).None? ==> r.fileContent == text && r.timeStampID == f.lastModified
    ensures parse(text).Some? ==>
      var obj := parse(text).value;
      && ("fileContent" !in obj ==> r.fileContent == "")
      && ("fileContent" in obj && obj["fileContent"].JString? ==> r.fileContent == obj["fileContent"].s)
      && ("createdAt" in obj && obj["createdAt"].JNumber? ==> r.timeStampID == obj["createdAt"].n)
      && (!("createdAt" in obj && obj["createdAt"].JNumber?) ==> r.timeStampID == f.lastModified)
  {
    match parse(text)
    case Some(obj) =>
      FileData(f.name, OptString(obj, "fileContent", ""), APP, OptLong(obj, "createdAt", f.lastModified))
    case None =>
      FileData(f.name, text, APP, f.lastModified)
  }

  /** A record saved through `applyBasicContent` loads back with the saved
      content and creation time, provided the JSON library reads back what
      it wrote. */
  lemma SavedRecordLoadsBack(
    f: ListedFile, fields: JsonFields, fileName: string, selectedStorage: StorageOption,
    current: FileData, createdAt: int,
    render: JsonFields -> string, parse: string -> Option<JsonFields>)
    requires var saved := Extensions.WithBasicContent(fields, fileName, selectedStorage, current, createdAt);
      parse(render(saved)) == Some(saved)
    ensures var saved := Extensions.WithBasicContent(fields, fileName, selectedStorage, current, createdAt);
      var r := DecodeFile(f, render(saved), parse);
      r == FileData(f.name, current.fileContent, APP, createdAt)
  {
    var saved := Extensions.WithBasicContent(fields, fileName, selectedStorage, current, createdAt);
    Extensions.BasicContentReadsBack(fields, fileName, selectedStorage, current, createdAt, "", f.lastModified);
  }

  // ---------------------------------------------------------------------
  // Collecting the entries
  // ---------------------------------------------------------------------

  /** The listed file yields an entry: reading it gives a non-empty text.
      `unreadable` holds the names whose read raises an I/O or security
      error. */
  predicate Loadable(dir: AppStorage, f: ListedFile, unreadable: set<string>)
    reads dir
    ensures Loadable(dir, f, unreadable) <==>
      f.name in dir.files && f.name !in unreadable && dir.files[f.name] != ""
  {
    var text := ReadTextFromFileInAppStorage(dir, f.name, f.name in unreadable);
    text.Some? && text.value != ""
  }

  /** The entries the `forEach` collects from `files`, in listing order. */
  function LoadEntries(dir: AppStorage, files: seq<ListedFile>, unreadable: set<string>,
                       parse: string -> Option<JsonFields>): (r: seq<FileData>)
    reads dir
    ensures |r| <= |files|
    ensures forall k :: 0 <= k < |r| ==> r[k].storage == APP
    decreases |files|
  {
    if files == [] then []
    else
      var f := files[|files| - 1];
      var rest := LoadEntries(dir, files[..|files| - 1], unreadable, parse);
      if Loadable(dir, f, unreadable) then rest + [DecodeFile(f, dir.files[f.name], parse)] else rest
  }

  /** Each file is handled on its own, in listing order: loading a
      concatenation loads each part. With `LoadEntriesSingleton` this fixes
      the result exactly: one entry per loadable file, in order. */
  lemma {:induction false} LoadEntriesAppend(dir: AppStorage, a: seq<ListedFile>, b: seq<ListedFile>,
                                            unreadable: set<string>, parse: string -> Option<JsonFields>)
    ensures LoadEntries(dir, a + b, unreadable, parse)
      == LoadEntries(dir, a, unreadable, parse) + LoadEntries(dir, b, unreadable, parse)
    decreases |b|
  {
    if b == [] {
      assert a + b == a;
    } else {
      var ab := a + b;
      assert ab[..|ab| - 1] == a + b[..|b| - 1];
      assert ab[|ab| - 1] == b[|b| - 1];
      LoadEntriesAppend(dir, a, b[..|b| - 1], unreadable, parse);
    }
  }

  /** One listed file gives its decoding when it is loadable, and nothing
      otherwise. */
  lemma LoadEntriesSingleton(dir: AppStorage, f: ListedFile, unreadable: set<string>,
                             parse: string -> Option<JsonFields>)
    ensures LoadEntries(dir, [f], unreadable, parse)
      == if Loadable(dir, f, unreadable) then [DecodeFile(f, dir.files[f.name], parse)] else []
  {
    assert [f][..0] == [];
  }

  /** Every collected entry is the decoding of a loadable listed file. */
  lemma {:induction false} LoadEntriesSound(dir: AppStorage, files: seq<ListedFile>, unreadable: set<string>,
                                           parse: string -> Option<JsonFields>)
    ensures forall e :: e in LoadEntries(dir, files, unreadable, parse) ==>
      exists f :: f in files && Loadable(dir, f, unreadable) && e == DecodeFile(f, dir.files[f.name], parse)
    decreases |files|
  {
    if files != [] {
      var init := files[..|files| - 1];
      var last := files[|files| - 1];
      var rest := LoadEntries(dir, init, unreadable, parse);
      LoadEntriesSound(dir, init, unreadable, parse);
      forall e | e in LoadEntries(dir, files, unreadable, parse)
        ensures exists f :: f in files && Loadable(dir, f, unreadable) && e == DecodeFile(f, dir.files[f.name], parse)
      {
        if e in rest {
          var f :| f in init && Loadable(dir, f, unreadable) && e == DecodeFile(f, dir.files[f.name], parse);
          var i :| 0 <= i < |init| && init[i] == f;
          assert files[i] == f;
        } else {
          assert e == DecodeFile(last, dir.files[last.name], parse);
          assert last in files;
        }
      }
    }
  }

  /** Every loadable listed file contributes its decoding. */
  lemma {:induction false} LoadEntriesComplete(dir: AppStorage, files: seq<ListedFile>, unreadable: set<string>,
                                              parse: string -> Option<JsonFields>)
    ensures forall f :: f in files && Loadable(dir, f, unreadable) ==>
      DecodeFile(f, dir.files[f.name], parse) in LoadEntries(dir, files, unreadable, parse)
    decreases |files|
  {
    if files != [] {
      var init := files[..|files| - 1];
      var last := files[|files| - 1];
      var rest := LoadEntries(dir, init, unreadable, parse);
      var r := LoadEntries(dir, files, unreadable, parse);
      LoadEntriesComplete(dir, init, unreadable, parse);
      forall f | f in files && Loadable(dir, f, unreadable)
        ensures DecodeFile(f, dir.files[f.name], parse) in r
      {
        var i :| 0 <= i < |files| && files[i] == f;
        if i < |init| {
          assert init[i] == f;
          assert DecodeFile(f, dir.files[f.name], parse) in rest;
        } else {
          assert f == last;
        }
      }
    }
  }

  /** Only whether a file is loadable decides whether it appears: a listing
      of loadable files gives one entry per file. */
  lemma {:induction false} LoadEntriesAllLoadable(dir: AppStorage, files: seq<ListedFile>,
                                                 unreadable: set<string>, parse: string -> Option<JsonFields>)
    requires forall j {:trigger files[j]} :: 0 <= j < |files| ==> Loadable(dir, files[j], unreadable)
    ensures |LoadEntries(dir, files, unreadable, parse)| == |files|
    ensures forall j :: 0 <= j < |files| ==>
      (files[j].name in dir.files &&
       LoadEntries(dir, files, unreadable, parse)[j] == DecodeFile(files[j], dir.files[files[j].name], parse))
    decreases |files|
  {
    if files != [] {
      var init := files[..|files| - 1];
      var last := files[|files| - 1];
      LoadEntriesAllLoadable(dir, init, unreadable, parse);
      var rest := LoadEntries(dir, init, unreadable, parse);
      var r := LoadEntries(dir, files, unreadable, parse);
      assert Loadable(dir, last, unreadable);
      assert r == rest + [DecodeFile(last, dir.files[last.name], parse)];
      forall j | 0 <= j < |files|
        ensures r[j] == DecodeFile(files[j], dir.files[files[j].name], parse)
      {
        if j < |init| {
          assert init[j] == files[j];
          assert r[j] == rest[j];
        }
      }
    }
  }

  /** A file that is missing, unreadable or empty adds nothing. */
  lemma LoadEntriesSkips(dir: AppStorage, files: seq<ListedFile>, f: ListedFile,
                         unreadable: set<string>, parse: string -> Option<JsonFields>)
    requires !Loadable(dir, f, unreadable)
    ensures LoadEntries(dir, files + [f], unreadable, parse) == LoadEntries(dir, files, unreadable, parse)
  {
    assert (files + [f])[..|files|] == files;
  }

  // ---------------------------------------------------------------------
  // sortedByDescending { it.fileName }
  // ---------------------------------------------------------------------

  /** Sorted by name, largest first. */
  predicate SortedByNameDescending(s: seq<FileData>)
  {
    forall i, j :: 0 <= i < j < |s| ==> LexLeq(s[j].fileName, s[i].fileName)
  }

  /** Puts `x` in front of the first entry whose name is not larger, so that
      among equal names the earlier input stays first. */
  function InsertByName(x: FileData, s: seq<FileData>): (r: seq<FileData>)
    requires SortedByNameDescending(s)
    ensures multiset(r) == multiset(s) + multiset{x}
    ensures SortedByNameDescending(r)
    decreases |s|
  {
    if s == [] then [x]
    else if LexLeq(s[0].fileName, x.fileName) then
      InsertFront(x, s);
      [x] + s
    else
      var rest := InsertByName(x, s[1..]);
      assert s == [s[0]] + s[1..];
      LexLeqTotal(x.fileName, s[0].fileName);
      InsertBehind(s[0], x, s[1..], rest);
      [s[0]] + rest
  }

  /** `x` in front of a sorted list whose head is not larger keeps it sorted. */
  lemma InsertFront(x: FileData, s: seq<FileData>)
    requires SortedByNameDescending(s) && s != [] && LexLeq(s[0].fileName, x.fileName)
    ensures SortedByNameDescending([x] + s)
  {
    var r := [x] + s;
    forall i, j | 0 <= i < j < |r| ensures LexLeq(r[j].fileName, r[i].fileName) {
      if i == 0 && j > 1 {
        LexLeqTransitive(s[j - 1].fileName, s[0].fileName, x.fileName);
      }
    }
  }

  /** `y` in front of the sorted insertion of `x` into `s` keeps it sorted
      when `y` is at least `x` and every entry of `s`. */
  lemma InsertBehind(y: FileData, x: FileData, s: seq<FileData>, rest: seq<FileData>)
    requires SortedByNameDescending([y] + s)
    requires LexLeq(x.fileName, y.fileName)
    requires SortedByNameDescending(rest)
    requires multiset(rest) == multiset(s) + multiset{x}
    ensures SortedByNameDescending([y] + rest)
  {
    var r := [y] + rest;
    forall j | 0 <= j < |rest| ensures LexLeq(rest[j].fileName, y.fileName) {
      var z := rest[j];
      assert z in multiset(rest);
      if z != x {
        assert multiset(s)[z] == multiset(rest)[z] > 0;
        assert z in s;
        var k :| 0 <= k < |s| && s[k] == z;
        var ys := [y] + s;
        assert ys[0] == y && ys[k + 1] == z;
        assert LexLeq(ys[k + 1].fileName, ys[0].fileName);
      }
    }
    forall i, j | 0 <= i < j < |r| ensures LexLeq(r[j].fileName, r[i].fileName) {
      if i == 0 {
        assert r[j] == rest[j - 1];
      } else {
        assert r[i] == rest[i - 1] && r[j] == rest[j - 1];
      }
    }
  }

  /** `sortedByDescending { it.fileName }`: a stable insertion sort on
      `String.compareTo`. */
  function SortByNameDescending(s: seq<FileData>): (r: seq<FileData>)
    ensures multiset(r) == multiset(s)
    ensures |r| == |s|
    ensures SortedByNameDescending(r)
    decreases |s|
  {
    if s == [] then []
    else
      assert s == [s[0]] + s[1..];
      InsertByName(s[0], SortByNameDescending(s[1..]))
  }

  /** Sorting a list that is already in order changes nothing. */
  lemma {:induction false} SortKeepsSortedList(s: seq<FileData>)
    requires SortedByNameDescending(s)
    ensures SortByNameDescending(s) == s
    decreases |s|
  {
    if s != [] {
      var tail := s[1..];
      assert SortedByNameDescending(tail) by {
        forall i, j | 0 <= i < j < |tail| ensures LexLeq(tail[j].fileName, tail[i].fileName) {
          assert tail[i] == s[i + 1] && tail[j] == s[j + 1];
        }
      }
      SortKeepsSortedList(tail);
      if |tail| > 0 {
        assert LexLeq(s[1].fileName, s[0].fileName);
      }
      assert s == [s[0]] + tail;
    }
  }

  // ---------------------------------------------------------------------
  // The view model
  // ---------------------------------------------------------------------

  class MainActivityViewModel {
    /** `_fileList.value`. */
    var fileList: seq<FileData>

    /** A new view model holds the empty list; its `init` block then
        launches `initLoadFiles`, modelled as a separate call. */
    constructor ()
      ensures fileList == []
    {
      fileList := [];
    }

    /** `changeFileList(value)`. */
    method ChangeFileList(value: seq<FileData>)
      modifies this
      ensures fileList == value
    {
      fileList := value;
    }

    /** `initLoadFiles`: lists the ".json" entries of the app-private
        directory (`listing` is the directory listing), reads each one, skips
        those whose text is null or empty, decodes the rest and publishes
        them sorted by name, largest first. */
    method InitLoadFiles(dir: AppStorage, listing: Option<seq<ListedFile>>, unreadable: set<string>,
                         parse: string -> Option<JsonFields>)
      modifies this
      ensures fileList == SortByNameDescending(LoadEntries(dir, ListFilesInAppStorage(listing), unreadable, parse))
    {
      var filesInAppStorage := ListFilesInAppStorage(listing);
      var fileListLocal: seq<FileData> := [];
      var i := 0;
      while i < |filesInAppStorage|
        invariant 0 <= i <= |filesInAppStorage|
        invariant fileListLocal == LoadEntries(dir, filesInAppStorage[..i], unreadable, parse)
      {
        var f := filesInAppStorage[i];
        var text := ReadTextFromFileInAppStorage(dir, f.name, f.name in unreadable);
        assert filesInAppStorage[..i + 1][..i] == filesInAppStorage[..i];
        if text.Some? && text.value != "" {
          var fileData := DecodeFile(f, text.value, parse);
          fileListLocal := fileListLocal + [fileData];
        }
        i := i + 1;
      }
      assert filesInAppStorage[..i] == filesInAppStorage;
      fileList := SortByNameDescending(fileListLocal);
    }
  }

  /** What the load publishes: the collected entries (one per loadable file,
      by `LoadEntriesAppend` and `LoadEntriesSingleton`) rearranged so that
      names run from the largest to the smallest; every entry is an APP
      entry decoded from a loadable ".json" file of the listing, and every
      such file appears. */
  lemma LoadedListFacts(dir: AppStorage, listing: Option<seq<ListedFile>>, unreadable: set<string>,
                        parse: string -> Option<JsonFields>)
    ensures var files := ListFilesInAppStorage(listing);
      var loaded := SortByNameDescending(LoadEntries(dir, files, unreadable, parse));
      && SortedByNameDescending(loaded)
      && multiset(loaded) == multiset(LoadEntries(dir, files, unreadable, parse))
      && (forall e :: e in loaded ==> e.storage == APP)
      && (forall e :: e in loaded ==>
            exists f :: (f in files && EndsWith(f.name, JSON_EXTENSION)
                         && Loadable(dir, f, unreadable) && e == DecodeFile(f, dir.files[f.name], parse)))
      && (forall f :: f in files && Loadable(dir, f, unreadable) ==> DecodeFile(f, dir.files[f.name], parse) in loaded)
  {
    var files := ListFilesInAppStorage(listing);
    var entries := LoadEntries(dir, files, unreadable, parse);
    var loaded := SortByNameDescending(entries);
    LoadEntriesSound(dir, files, unreadable, parse);
    LoadEntriesComplete(dir, files, unreadable, parse);
    forall e | e in loaded
      ensures e in entries
    {
      assert e in multiset(loaded);
    }
    forall e | e in entries
      ensures e in loaded
    {
      assert e in multiset(entries);
    }
  }
}
