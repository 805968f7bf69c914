/**
 * The file-name rules of the save-editor-file and create-file routes of
 * app.js: validation of a requested name, the room suffix a manual save
 * adds, and the numbered names tried when a name is taken. Extensions follow
 * Node's POSIX `path.extname` and `path.basename(p, ext)` on names without a
 * slash, which is every name these rules build once the names are valid.
 */
module FileNames {
  import opened Text
  import EditorStore

  /** Why a route refuses a request; each is one error response of the source. */
  datatype FileError =
    | NameRequired    // 400: missing or blank name
    | InvalidName     // 400: name holds "..", "/" or "\"
    | InvalidRoom     // 400: room id holds "..", "/" or "\" (see Findings)
    | AlreadyExists   // 400: create-file onto an existing path
    | WriteFailed     // 500: the file system refused the write

  /** `s.includes('..') || s.includes('/') || s.includes('\\')`. */
  predicate Unsafe(s: string)
  {
    HasDoubleDot(s) || '/' in s || '\\' in s
  }

  /**
   * The shared check of both routes: a blank name is `NameRequired`, a
   * trimmed name that could step out of its directory is `InvalidName`, and
   * otherwise the trimmed name is the one used.
   */
  function ValidateName(name: string): (r: Result<string, FileError>)
    ensures r == Err(NameRequired) <==> AllWhiteSpace(name)
    ensures r == Err(InvalidName) <==> !AllWhiteSpace(name) && Unsafe(Trim(name))
    ensures r.Ok? <==> !AllWhiteSpace(name) && !Unsafe(Trim(name))
    ensures r.Ok? ==> r.value == Trim(name) && r.value != [] && !Unsafe(r.value)
    ensures r.Ok? ==> !IsWhiteSpace(r.value[0]) && !IsWhiteSpace(r.value[|r.value| - 1])
  {
    var clean := Trim(name);
    if clean == [] then Err(NameRequired)
    else if Unsafe(clean) then Err(InvalidName)
    else Ok(clean)
  }

  /** A name the check accepts is accepted unchanged when sent again. */
  lemma ValidateNameIdempotent(name: string)
    requires ValidateName(name).Ok?
    ensures ValidateName(ValidateName(name).value) == ValidateName(name)
  {
    TrimIdempotent(name);
  }

  // ---------------------------------------------------------------------------
  // path.extname, path.basename(p, ext)
  // ---------------------------------------------------------------------------

  /** The index of the last '.' of `s`, or -1. */
  function LastDot(s: string): (i: int)
    ensures -1 <= i < |s|
    ensures 0 <= i ==> s[i] == '.'
    ensures forall k :: i < k < |s| ==> s[k] != '.'
  {
    if s == [] then -1
    else if s[|s| - 1] == '.' then |s| - 1
    else LastDot(s[..|s| - 1])
  }

  /**
   * `path.extname(name)` for a name without a slash: from the last dot to the
   * end, except that a name without a dot, a name whose only dots lead it
   * (".bashrc") and the name ".." have no extension.
   */
  function Extname(name: string): (e: string)
    requires '/' !in name
    ensures |e| <= |name| && name[|name| - |e|..] == e
    ensures e != [] ==> e[0] == '.' && '.' !in e[1..] && |e| < |name|
    ensures e == [] <==> LastDot(name) <= 0 || name == ".."
  {
    var i := LastDot(name);
    if i <= 0 || name == ".." then [] else name[i..]
  }

  /** `path.basename(name, path.extname(name))`: the name without its extension. */
  function Stem(name: string): (stem: string)
    requires '/' !in name
    ensures stem + Extname(name) == name
    ensures Extname(name) != [] ==> stem != []
  {
    name[..|name| - |Extname(name)|]
  }

  /** A name whose only dot starts its extension has that extension. */
  lemma ExtnameOfSuffix(front: string, ext: string)
    requires '/' !in front && '/' !in ext
    requires front != [] && front != "." && ext != [] && ext[0] == '.' && '.' !in ext[1..]
    ensures Extname(front + ext) == ext
  {
    var name := front + ext;
    assert name[|front|] == '.';
    assert forall k :: |front| < k < |name| ==> name[k] == ext[1..][k - |front| - 1];
  }

  // ---------------------------------------------------------------------------
  // The room suffix of a manual save
  // ---------------------------------------------------------------------------

  /**
   * `finalFilename` as app.js builds it: outside the default room the stem of
   * the file name gains `_room-<roomId>` before the extension. The room id is
   * not checked (see Findings).
   */
  function RoomFileName(clean: string, roomId: string): (name: string)
    requires '/' !in clean
    ensures roomId == "" || roomId == EditorStore.DefaultRoom ==> name == clean
    ensures roomId != "" && roomId != EditorStore.DefaultRoom ==>
      name == Stem(clean) + "_room-" + roomId + Extname(clean)
  {
    if roomId != "" && roomId != EditorStore.DefaultRoom then Stem(clean) + "_room-" + roomId + Extname(clean)
    else clean
  }

  /** The name "notes.txt" passes the check unchanged. */
  lemma NotesTxtIsValid()
    ensures ValidateName("notes.txt") == Ok("notes.txt")
  {
    NotesTxtIsTrimmed();
    NotesTxtIsSafe();
  }

  lemma NotesTxtIsTrimmed()
    ensures Trim("notes.txt") == "notes.txt"
    ensures !AllWhiteSpace("notes.txt")
  {
    var clean := "notes.txt";
    assert clean[0] == 'n' && clean[8] == 't';
    assert LeadingSpace(clean) == 0;
    assert TrailingSpace(clean) == 0;
  }

  lemma NotesTxtIsSafe()
    ensures !Unsafe("notes.txt")
  {
    var clean := "notes.txt";
    assert forall k :: 0 <= k < |clean| && k != 5 ==> clean[k] != '.';
  }

  /** "notes.txt" splits into the stem "notes" and the extension ".txt". */
  lemma NotesTxtParts()
    ensures Extname("notes.txt") == ".txt" && Stem("notes.txt") == "notes"
  {
    assert "notes" + ".txt" == "notes.txt";
    ExtnameOfSuffix("notes", ".txt");
  }

  /**
   * A room id goes into the save name unchecked: a file name the check
   * accepts, saved from room "x/../../app", becomes
   * "notes_room-x/../../app.txt". Once joined onto `Saved` and normalized
   * that path is "app.txt" in the uploads directory itself, outside `Saved`.
   */
  lemma RoomFileNameKeepsSlash()
    ensures ValidateName("notes.txt") == Ok("notes.txt")
    ensures RoomFileName("notes.txt", "x/../../app") == "notes_room-x/../../app.txt"
    ensures var name := RoomFileName("notes.txt", "x/../../app");
      '/' in name && HasDoubleDot(name)
  {
    NotesTxtIsValid();
    NotesTxtParts();
    var name := RoomFileName("notes.txt", "x/../../app");
    assert name == "notes" + "_room-" + "x/../../app" + ".txt";
    assert name[12] == '/' && name[13] == '.' && name[14] == '.';
  }

  /**
   * The save name with the room suffix, the room id held to the rule of the
   * file name: a room id that could step out of the `Saved` directory is
   * refused, so the name stays one slash-free component.
   */
  function SavedFileName(clean: string, roomId: string): (r: Result<string, FileError>)
    requires !Unsafe(clean)
    ensures r.Err? <==> roomId != "" && roomId != EditorStore.DefaultRoom && Unsafe(roomId)
    ensures r.Err? ==> r.error == InvalidRoom
    ensures r.Ok? ==> r.value == RoomFileName(clean, roomId)
  {
    if roomId != "" && roomId != EditorStore.DefaultRoom && Unsafe(roomId) then Err(InvalidRoom)
    else Ok(RoomFileName(clean, roomId))
  }

  /** A save name that is accepted is one component: it holds no separator of either kind. */
  lemma SavedFileNameIsOneComponent(clean: string, roomId: string)
    requires !Unsafe(clean)
    requires SavedFileName(clean, roomId).Ok?
    ensures '/' !in SavedFileName(clean, roomId).value
    ensures '\\' !in SavedFileName(clean, roomId).value
  {
    RoomFileNameChars(clean, roomId);
  }

  /** Every character of a save name comes from the file name, the suffix or the room id. */
  lemma RoomFileNameChars(clean: string, roomId: string)
    requires '/' !in clean
    ensures forall c :: c in RoomFileName(clean, roomId) ==> c in clean || c in "_room-" || c in roomId
  {
    var stem, ext := Stem(clean), Extname(clean);
    assert forall c :: c in stem ==> c in clean;
    assert forall c :: c in ext ==> c in clean;
  }

  /** Outside the default room a save name keeps the extension of the file name. */
  lemma RoomFileNameKeepsExtension(clean: string, roomId: string)
    requires '/' !in clean && '/' !in roomId
    requires roomId != "" && roomId != EditorStore.DefaultRoom
    requires Extname(clean) != []
    ensures Extname(RoomFileName(clean, roomId)) == Extname(clean)
    ensures Stem(RoomFileName(clean, roomId)) == Stem(clean) + "_room-" + roomId
  {
    var front := Stem(clean) + "_room-" + roomId;
    assert RoomFileName(clean, roomId) == front + Extname(clean);
    ExtnameOfSuffix(front, Extname(clean));
  }

  // ---------------------------------------------------------------------------
  // Numbered names
  // ---------------------------------------------------------------------------

  /** `${nameWithoutExt}_${counter}${ext}`: the name tried after `n` taken ones. */
  function Candidate(final: string, n: nat): (name: string)
    requires '/' !in final
    ensures '/' !in name
    ensures |name| > |final|
  {
    Stem(final) + "_" + NatToString(n) + Extname(final)
  }

  /** The counter goes between the stem and the extension, which the numbered name keeps. */
  lemma CandidateKeepsExtension(final: string, n: nat)
    requires '/' !in final && Extname(final) != []
    ensures Extname(Candidate(final, n)) == Extname(final)
    ensures Stem(Candidate(final, n)) == Stem(final) + "_" + NatToString(n)
  {
    var front := Stem(final) + "_" + NatToString(n);
    assert Candidate(final, n) == front + Extname(final);
    assert front != "." by {
      assert |front| >= 2;
    }
    ExtnameOfSuffix(front, Extname(final));
  }

  /** Different counters give different names, and none is the name they replace. */
  lemma CandidateInjective(final: string, m: nat, n: nat)
    requires '/' !in final
    ensures Candidate(final, m) == Candidate(final, n) <==> m == n
    ensures Candidate(final, m) != final
  {
    var stem, ext := Stem(final), Extname(final);
    var a, b := Candidate(final, m), Candidate(final, n);
    if a == b {
      var i := |stem| + 1;
      assert a[i..|a| - |ext|] == NatToString(m);
      assert b[i..|b| - |ext|] == NatToString(n);
      NatToStringInjective(m, n);
    }
  }
}
