/**
 * The extension functions of the app: the five-key record a map file is
 * saved as, file-name sanitising, and the name-exists check.
 */
module Extensions {
  import opened Strings
  import opened Json
  import opened Classes

  // ---------------------------------------------------------------------
  // applyBasicContent
  // ---------------------------------------------------------------------

  /** The keys `applyBasicContent` writes. */
  const BASIC_KEYS: set<string> := {"fileName", "storage", "createdAt", "fileContent", "storedIn"}

  /** The fields of a JSON object after `applyBasicContent`; `now` is the
      clock reading stored under "createdAt". */
  function WithBasicContent(
    fields: JsonFields, fileName: string, selectedStorage: StorageOption,
    fileContent: FileData, now: int): (r: JsonFields)
    ensures r.Keys == fields.Keys + BASIC_KEYS
    ensures r["fileName"] == JString(fileName)
    ensures r["storage"] == JString(selectedStorage.Name())
    ensures r["createdAt"] == JNumber(now)
    ensures r["fileContent"] == JString(fileContent.fileContent)
    ensures r["storedIn"] == JNumber(selectedStorage.Label())
    ensures forall k :: k in fields && k !in BASIC_KEYS ==> r[k] == fields[k]
  {
    fields["fileName" := JString(fileName)]
          ["storage" := JString(selectedStorage.Name())]
          ["createdAt" := JNumber(now)]
          ["fileContent" := JString(fileContent.fileContent)]
          ["storedIn" := JNumber(selectedStorage.Label())]
  }

  /** `obj.applyBasicContent(...)`: puts the five keys into `obj` and returns
      the same object. */
  method ApplyBasicContent(
    obj: JsonObject, fileName: string, selectedStorage: StorageOption,
    fileContent: FileData, now: int) returns (r: JsonObject)
    modifies obj
    ensures r == obj
    ensures obj.fields == WithBasicContent(old(obj.fields), fileName, selectedStorage, fileContent, now)
  {
    obj.Put("fileName", JString(fileName));
    obj.Put("storage", JString(selectedStorage.Name()));
    obj.Put("createdAt", JNumber(now));
    obj.Put("fileContent", JString(fileContent.fileContent));
    obj.Put("storedIn", JNumber(selectedStorage.Label()));
    r := obj;
  }

  /** Reading a saved record back with the getters the loader uses gives the
      saved content and creation time. */
  lemma BasicContentReadsBack(
    fields: JsonFields, fileName: string, selectedStorage: StorageOption,
    fileContent: FileData, now: int, fallbackContent: string, fallbackTime: int)
    ensures var r := WithBasicContent(fields, fileName, selectedStorage, fileContent, now);
      && OptString(r, "fileContent", fallbackContent) == fileContent.fileContent
      && OptLong(r, "createdAt", fallbackTime) == now
  {
  }

  // ---------------------------------------------------------------------
  // sanitizeAndEnsureJsonExtension
  // ---------------------------------------------------------------------

  /** The characters a file name may not contain. */
  const ILLEGAL_FILE_NAME_CHARS: string := "/\\:*?\"<>|"

  predicate IsIllegalFileNameChar(c: char)
    ensures IsIllegalFileNameChar(c) <==> c in ILLEGAL_FILE_NAME_CHARS
  {
    c == '/' || c == '\\' || c == ':' || c == '*' || c == '?' || c == '"' || c == '<' || c == '>' || c == '|'
  }

  predicate HasNoIllegalChar(s: string)
  {
    forall i :: 0 <= i < |s| ==> !IsIllegalFileNameChar(s[i])
  }

  /** `replace(Regex("[/\\\\:*?\"<>|]"), "_")`: each illegal character
      becomes '_', every other character stays where it is. */
  function ReplaceIllegalChars(s: string): (r: string)
    ensures |r| == |s|
    ensures forall i :: 0 <= i < |s| && IsIllegalFileNameChar(s[i]) ==> r[i] == '_'
    ensures forall i :: 0 <= i < |s| && !IsIllegalFileNameChar(s[i]) ==> r[i] == s[i]
    ensures HasNoIllegalChar(r)
    decreases |s|
  {
    if s == [] then []
    else [if IsIllegalFileNameChar(s[0]) then '_' else s[0]] + ReplaceIllegalChars(s[1..])
  }

  /** `trim().ifBlank { fallbackString }`: the fallback for a blank name,
      otherwise the non-empty name without its outer whitespace. */
  function TrimmedOrFallback(s: string, fallbackString: string): (r: string)
    ensures IsBlank(s) ==> r == fallbackString
    ensures !IsBlank(s) ==> r == Trim(s) && r != [] && NoOuterWhitespace(r)
  {
    var trimmed := Trim(s);
    if IsBlank(trimmed) then fallbackString else trimmed
  }

  /** `if (endsWith(".json", ignoreCase = true)) this else "$this.json"`. */
  function EnsureJsonExtension(sanitized: string): (r: string)
    requires HasNoIllegalChar(sanitized)
    ensures EndsWithJsonIgnoringCase(r)
    ensures HasNoIllegalChar(r)
  {
    if EndsWithJsonIgnoringCase(sanitized) then sanitized
    else
      AppendExtension(sanitized);
      sanitized + JSON_EXTENSION
  }

  /** `s.sanitizeAndEnsureJsonExtension(fallbackString)`. */
  function SanitizeAndEnsureJsonExtension(s: string, fallbackString: string): (r: string)
    ensures EndsWithJsonIgnoringCase(r)
    ensures HasNoIllegalChar(r)
  {
    EnsureJsonExtension(ReplaceIllegalChars(TrimmedOrFallback(s, fallbackString)))
  }

  lemma AppendExtension(s: string)
    requires HasNoIllegalChar(s)
    ensures EndsWithJsonIgnoringCase(s + JSON_EXTENSION)
    ensures HasNoIllegalChar(s + JSON_EXTENSION)
  {
    var r := s + JSON_EXTENSION;
    assert r[|r| - 5..] == JSON_EXTENSION;
    forall i | 0 <= i < |r| ensures !IsIllegalFileNameChar(r[i]) {
      if i >= |s| {
        assert r[i] == JSON_EXTENSION[i - |s|];
      }
    }
  }

  /** The sanitised name is the candidate (trimmed input, or the fallback
      when that is blank) with illegal characters replaced one for one,
      followed by ".json" exactly when the candidate does not already end
      with it in some case. */
  lemma SanitizeShape(s: string, fallbackString: string)
    ensures var t := TrimmedOrFallback(s, fallbackString);
      var r := SanitizeAndEnsureJsonExtension(s, fallbackString);
      && (EndsWithJsonIgnoringCase(ReplaceIllegalChars(t)) ==> |r| == |t|)
      && (!EndsWithJsonIgnoringCase(ReplaceIllegalChars(t)) ==> |r| == |t| + 5 && r[|t|..] == JSON_EXTENSION)
      && (forall i :: 0 <= i < |t| && !IsIllegalFileNameChar(t[i]) ==> r[i] == t[i])
      && (forall i :: 0 <= i < |t| && IsIllegalFileNameChar(t[i]) ==> r[i] == '_')
  {
  }

  /** A blank name is replaced by the fallback, which is then sanitised. */
  lemma SanitizeBlankUsesFallback(s: string, fallbackString: string)
    requires IsBlank(s)
    ensures SanitizeAndEnsureJsonExtension(s, fallbackString)
         == EnsureJsonExtension(ReplaceIllegalChars(fallbackString))
  {
    assert Trim(s) == [];
  }

  /** A name with something other than whitespace at both ends is sanitised
      as it is. */
  lemma SanitizeTrimmedName(s: string, fallbackString: string)
    requires |s| > 0 && NoOuterWhitespace(s)
    ensures SanitizeAndEnsureJsonExtension(s, fallbackString) == EnsureJsonExtension(ReplaceIllegalChars(s))
  {
    assert Trim(s) == s;
    assert !IsWhitespace(s[0]);
  }

  /** Replacing illegal characters never creates or removes whitespace. */
  lemma ReplaceKeepsOuterWhitespace(s: string)
    requires NoOuterWhitespace(s)
    ensures NoOuterWhitespace(ReplaceIllegalChars(s))
    ensures !IsBlank(s) ==> !IsBlank(ReplaceIllegalChars(s))
  {
    var r := ReplaceIllegalChars(s);
    if !IsBlank(s) {
      var i :| 0 <= i < |s| && !IsWhitespace(s[i]);
      assert !IsWhitespace(r[i]);
    }
  }

  /** Sanitising twice gives what sanitising once gives, provided the
      fallback has no leading or trailing whitespace. */
  lemma SanitizeIdempotent(s: string, fallbackString: string)
    requires NoOuterWhitespace(fallbackString)
    ensures var r := SanitizeAndEnsureJsonExtension(s, fallbackString);
      SanitizeAndEnsureJsonExtension(r, fallbackString) == r
  {
    var t := TrimmedOrFallback(s, fallbackString);
    var sanitized := ReplaceIllegalChars(t);
    var r := EnsureJsonExtension(sanitized);
    assert NoOuterWhitespace(t);
    ReplaceKeepsOuterWhitespace(t);
    EnsureKeepsOuterWhitespace(sanitized);
    SanitizeTrimmedName(r, fallbackString);
    ReplaceIdentityWithoutIllegal(r);
  }

  /** Adding the extension keeps the outer characters free of whitespace
      and never leaves the name empty. */
  lemma EnsureKeepsOuterWhitespace(sanitized: string)
    requires HasNoIllegalChar(sanitized) && NoOuterWhitespace(sanitized)
    ensures var r := EnsureJsonExtension(sanitized); |r| > 0 && NoOuterWhitespace(r)
  {
    var r := EnsureJsonExtension(sanitized);
    if r != sanitized {
      assert r == sanitized + JSON_EXTENSION;
      assert r[|r| - 1] == 'n';
      if sanitized == [] {
        assert r[0] == '.';
      } else {
        assert r[0] == sanitized[0];
      }
    }
  }

  lemma ReplaceIdentityWithoutIllegal(s: string)
    requires HasNoIllegalChar(s)
    ensures ReplaceIllegalChars(s) == s
  {
  }

  // ---------------------------------------------------------------------
  // checkIfNameExists
  // ---------------------------------------------------------------------

  /** `name.checkIfNameExists(fileList)`: a linear search with a flag that
      stops at the first entry whose name equals `name` exactly. */
  method CheckIfNameExists(name: string, fileList: seq<FileData>) returns (doesNameExist: bool)
    ensures doesNameExist <==> exists i :: 0 <= i < |fileList| && fileList[i].fileName == name
  {
    doesNameExist := false;
    var i := 0;
    while i < |fileList|
      invariant 0 <= i <= |fileList|
      invariant !doesNameExist
      invariant forall j :: 0 <= j < i ==> fileList[j].fileName != name
    {
      doesNameExist := name == fileList[i].fileName;
      if doesNameExist {
        break;
      }
      i := i + 1;
    }
  }
}
