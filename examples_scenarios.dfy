/** Concrete inputs worked through the model. Each step of a computation on
    literal strings is its own small lemma, so that no single proof has to
    unfold a whole chain of functions. */
module Scenarios {
  import opened Strings
  import opened Extensions
  import opened Wrappers
  import opened Json
  import opened FileIO
  import opened MainActivity

  // ---- sanitizeAndEnsureJsonExtension -----------------------------------

  // The fallback already carries its extension.
  lemma UntitledKeepsExtension()
    ensures EnsureJsonExtension("Untitled.json") == "Untitled.json"
  {
  }

  // The fallback has no illegal character.
  lemma UntitledIsClean()
    ensures ReplaceIllegalChars("Untitled.json") == "Untitled.json"
  {
    assert HasNoIllegalChar("Untitled.json");
    ReplaceIdentityWithoutIllegal("Untitled.json");
  }

  // Three spaces are blank.
  lemma SpacesAreBlank()
    ensures IsBlank("   ")
  {
  }

  lemma SanitizeBlankExample()
    ensures SanitizeAndEnsureJsonExtension("   ", "Untitled.json") == "Untitled.json"
  {
    SpacesAreBlank();
    SanitizeBlankUsesFallback("   ", "Untitled.json");
    UntitledIsClean();
    UntitledKeepsExtension();
  }

  lemma SanitizeEmptyExample()
    ensures SanitizeAndEnsureJsonExtension("", "Untitled.json") == "Untitled.json"
  {
    SanitizeBlankUsesFallback("", "Untitled.json");
    UntitledIsClean();
    UntitledKeepsExtension();
  }

  // The replacement step of the "a/b:c" example.
  lemma ReplaceSlashAndColon()
    ensures ReplaceIllegalChars("a/b:c") == "a_b_c"
  {
  }

  // The extension step of the "a/b:c" example.
  lemma AppendToReplaced()
    ensures EnsureJsonExtension("a_b_c") == "a_b_c.json"
  {
  }

  lemma SanitizeReplaceExample()
    ensures SanitizeAndEnsureJsonExtension("a/b:c", "Untitled.json") == "a_b_c.json"
  {
    ReplaceSlashAndColon();
    AppendToReplaced();
    assert NoOuterWhitespace("a/b:c");
    SanitizeTrimmedName("a/b:c", "Untitled.json");
  }

  // Each sanitising step leaves "a.JSON" as it is.
  lemma UpperCaseExtensionKept()
    ensures NoOuterWhitespace("a.JSON")
    ensures ReplaceIllegalChars("a.JSON") == "a.JSON"
    ensures EnsureJsonExtension("a.JSON") == "a.JSON"
  {
    UpperCaseNameNoOuterWhitespace();
    UpperCaseNameReplaced();
  }

  // "a.JSON" neither starts nor ends with whitespace.
  lemma UpperCaseNameNoOuterWhitespace()
    ensures NoOuterWhitespace("a.JSON")
  {
  }

  // "a.JSON" has no character to replace.
  lemma UpperCaseNameReplaced()
    ensures ReplaceIllegalChars("a.JSON") == "a.JSON"
  {
  }

  lemma SanitizeUpperCaseExample()
    ensures SanitizeAndEnsureJsonExtension("a.JSON", "Untitled.json") == "a.JSON"
  {
    UpperCaseExtensionKept();
    SanitizeTrimmedName("a.JSON", "Untitled.json");
  }

  /** The case-insensitive extension test follows the JVM's upper-casing:
      a name ending in ".j", the long s (U+017F) and "on" already has a JSON
      extension and is kept, while "map.jzon" gets ".json" appended. */
  lemma LongSExtensionKept()
    ensures EndsWithJsonIgnoringCase("map.j\U{017F}on")
    ensures EnsureJsonExtension("map.j\U{017F}on") == "map.j\U{017F}on"
    ensures !EndsWithJsonIgnoringCase("map.jzon")
    ensures EnsureJsonExtension("map.jzon") == "map.jzon.json"
  {
  }

  // ---- makeUniqueFilename probes ----------------------------------------

  // The suffix step of the probes for "Map.json".
  lemma LowerCaseSuffixRemoved()
    ensures RemoveSuffix("Map.json", JSON_EXTENSION) == "Map"
  {
    assert EndsWith("Map.json", JSON_EXTENSION);
  }

  lemma SecondProbeOfLowerCaseName()
    ensures Candidate("Map.json", 2) == "Map(2).json"
  {
    LowerCaseSuffixRemoved();
  }

  // `removeSuffix` leaves an upper-case extension in place.
  lemma UpperCaseSuffixKept()
    ensures RemoveSuffix("Map.JSON", JSON_EXTENSION) == "Map.JSON"
  {
    assert !EndsWith("Map.JSON", JSON_EXTENSION) by {
      assert "Map.JSON"[3..][1] == 'J';
    }
  }

  /** The suffix is removed case-sensitively, so an upper-case extension
      stays inside the probe. */
  lemma FirstProbeOfUpperCaseName()
    ensures Candidate("Map.JSON", 1) == "Map.JSON(1).json"
  {
    UpperCaseSuffixKept();
  }

  // ---- checkIfFileNameIsInvalid -----------------------------------------

  // The two character conditions of the check, on the 16-letter name.
  lemma SixteenLettersAreLegal()
    ensures HasNoIllegalChar("abcdefghijklmnop") && !IsBlank("abcdefghijklmnop")
  {
    assert !IsWhitespace("abcdefghijklmnop"[0]);
  }

  lemma SixteenLetterNameAccepted()
    ensures !CheckIfFileNameIsInvalid("abcdefghijklmnop")
  {
    SixteenLettersAreLegal();
    MaxLengthBoundary("abcdefghijklmnop");
  }

  lemma SeventeenLetterNameRefused()
    ensures CheckIfFileNameIsInvalid("abcdefghijklmnopq")
  {
  }

  // ---- makeUniqueFilename twice, with a save in between -----------------

  // The probe `UniqueNameTwice` lands on.
  lemma FirstProbeOfLowerCaseName()
    ensures Candidate("Map.json", 1) == "Map(1).json"
  {
    LowerCaseSuffixRemoved();
  }

  /** Saving under the first answer makes the second call move on to the
      first numbered probe. */
  method UniqueNameTwice(dir: AppStorage) returns (first: string, second: string)
    requires dir.files == map[]
    modifies dir
    ensures first == "Map.json" && second == "Map(1).json"
    ensures dir.files == map["Map.json" := "{}"]
  {
    first := MakeUniqueFilename(dir, "Map.json");
    var ok := WriteTextToFileInAppStorage(dir, first, "{}", true);
    second := MakeUniqueFilename(dir, "Map.json");
    var k: nat :| second == Candidate("Map.json", k)
      && forall j :: 0 <= j < k ==> Candidate("Map.json", j) in dir.files;
    assert dir.files.Keys == {"Map.json"};
    CandidatesBound("Map.json", k, dir.files.Keys);
    assert k == 1;
    FirstProbeOfLowerCaseName();
  }

  // ---- getJsonDataFromUris on a mixed batch ------------------------------

  // The readable document of `MixedBatch` is not blank.
  lemma BracesAreNotBlank()
    ensures !IsBlank("{}")
  {
    assert !IsWhitespace("{}"[0]);
  }

  /** A readable JSON document, an empty one and one the system refuses to
      open give three results in order: a success, a JSON failure and a
      security failure. */
  lemma MixedBatch(parse: string -> Option<JsonFields>)
    requires parse("{}") == Some(map[])
    ensures var r := GetJsonDataFromUris([
        UriSource(Row(Some("a.json")), Text("{}")),
        UriSource(Row(Some("b.json")), Text("")),
        UriSource(Row(Some("c.json")), ReadThrows(SecurityException))], parse);
      && |r| == 3
      && r[0] == OperationResult(true, Some(("a.json", map[])), None, Some(0))
      && !r[1].isSuccess && r[1].errorInfo == Some(JsonException) && r[1].index == Some(1)
      && !r[2].isSuccess && r[2].errorInfo == Some(SecurityException) && r[2].index == Some(2)
  {
    BracesAreNotBlank();
  }

  // ---- a name outside the Basic Multilingual Plane ----------------------

  /** Nine emoji are nine characters but 18 UTF-16 units, so `length`
      exceeds the bound and the name is refused. */
  lemma NineEmojiNameRefused()
    ensures var s := "\U{1F600}\U{1F600}\U{1F600}\U{1F600}\U{1F600}\U{1F600}\U{1F600}\U{1F600}\U{1F600}";
      |s| == 9 && CheckIfFileNameIsInvalid(s)
  {
    var s := "\U{1F600}\U{1F600}\U{1F600}\U{1F600}\U{1F600}\U{1F600}\U{1F600}\U{1F600}\U{1F600}";
    Utf16LengthSupplementary(s);
  }

  // ---- an upper-case extension is saved but not listed ------------------

  // The dialog accepts "a.JSON".
  lemma UpperCaseNameAccepted()
    ensures !CheckIfFileNameIsInvalid("a.JSON")
  {
    assert !IsWhitespace("a.JSON"[0]);
  }

  // Sanitising keeps "a.JSON", whatever the fallback.
  lemma UpperCaseNameSanitized(fallbackString: string)
    ensures SanitizeAndEnsureJsonExtension("a.JSON", fallbackString) == "a.JSON"
  {
    UpperCaseExtensionKept();
    SanitizeTrimmedName("a.JSON", fallbackString);
  }

  // The case-sensitive listing drops "a.JSON".
  lemma UpperCaseNameNotListed(lastModified: int)
    ensures ListFilesInAppStorage(Some([ListedFile("a.JSON", lastModified)])) == []
  {
    assert !EndsWith("a.JSON", JSON_EXTENSION) by {
      assert "a.JSON"[1..][1] == 'J';
    }
    assert [ListedFile("a.JSON", lastModified)][1..] == [];
  }

  /** As written: the dialog accepts "a.JSON" and sanitising keeps it (the
      extension test ignores case), so an app-storage save into a directory
      without that name writes "a.JSON" (probe 0 of `makeUniqueFilename`).
      The start-up listing keeps only names ending in lower-case ".json", so
      the saved map never loads again. */
  lemma UpperCaseSaveIsNotReloaded(screen: MainScreen, lastModified: int)
    requires screen.currentFileData.fileName == "a.JSON"
    ensures !CheckIfFileNameIsInvalid(screen.currentFileData.fileName)
    ensures screen.SanitizedFileName() == "a.JSON" == Candidate(screen.SanitizedFileName(), 0)
    ensures ListFilesInAppStorage(Some([ListedFile(screen.SanitizedFileName(), lastModified)])) == []
  {
    UpperCaseNameAccepted();
    UpperCaseNameSanitized(screen.fallbackString);
    UpperCaseNameNotListed(lastModified);
  }

  /** With the corrected filter the same file is listed. */
  lemma UpperCaseSaveIsListedIgnoringCase(screen: MainScreen, lastModified: int)
    requires screen.currentFileData.fileName == "a.JSON"
    ensures ListFilesInAppStorageIgnoringCase(Some([ListedFile(screen.SanitizedFileName(), lastModified)]))
      == [ListedFile("a.JSON", lastModified)]
  {
    UpperCaseNameSanitized(screen.fallbackString);
    SavedNameIsListedIgnoringCase(screen, 0, [ListedFile("a.JSON", lastModified)], lastModified);
  }
}
