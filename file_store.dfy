/**
 * The uploads directory as the save-editor-file and create-file routes of
 * app.js change it. Paths are relative to the uploads directory, with "/"
 * between components ("" is the directory itself); the content of every
 * file is kept, and the directories are a set of paths.
 */
module FileStore {
  import opened Text
  import opened FileNames

  /** The directory manual editor saves go to. */
  const SavedDir: string := "Saved"

  /**
   * `path.join(dir, name)` for a normalized `dir` and a one-component `name`:
   * the name "." is the directory itself.
   */
  function JoinPath(dir: string, name: string): (p: string)
    requires '/' !in name
    ensures name == "." ==> p == dir
    ensures name != "." ==> p == name || p == dir + "/" + name
  {
    if name == "." then dir else if dir == "" then name else dir + "/" + name
  }

  /** Any name other than "." names an entry directly inside the directory, ending in the name. */
  lemma JoinPathInDir(dir: string, name: string)
    requires '/' !in name && name != "."
    ensures Dirname(JoinPath(dir, name)) == dir
    ensures |name| <= |JoinPath(dir, name)| && JoinPath(dir, name)[|JoinPath(dir, name)| - |name|..] == name
  {
    DirnameOfChild(dir, name);
  }

  /** A name without a slash lies directly in the directory it is appended to. */
  lemma {:induction false} DirnameOfChild(dir: string, name: string)
    requires '/' !in name
    ensures Dirname(dir + "/" + name) == dir
    ensures Dirname(name) == ""
  {
    if name != [] {
      var front := name[..|name| - 1];
      var p := dir + "/" + name;
      assert p[|p| - 1] == name[|name| - 1];
      assert p[..|p| - 1] == dir + "/" + front;
      DirnameOfChild(dir, front);
    } else {
      assert dir + "/" + name == dir + "/";
    }
  }

  /** Inside one directory, different names other than "." are different paths. */
  lemma JoinPathInjective(dir: string, a: string, b: string)
    requires '/' !in a && '/' !in b && a != "." && b != "." && a != "" && b != ""
    ensures JoinPath(dir, a) == JoinPath(dir, b) <==> a == b
  {
    if dir != "" && JoinPath(dir, a) == JoinPath(dir, b) {
      assert a == JoinPath(dir, a)[|dir| + 1..];
    }
  }

  /**
   * `path.normalize` on the segments of a relative path: empty and "."
   * segments go, and ".." removes the segment before it, if there is one
   * that is not itself "..".
   */
  function Normalize(parts: seq<string>): (r: seq<string>)
    ensures forall k :: 0 <= k < |r| ==> r[k] != "" && r[k] != "."
    ensures |r| <= |parts|
    // every segment kept comes from the input
    ensures forall k :: 0 <= k < |r| ==> r[k] in parts
    // a ".." is left only where nothing before it could cancel it: the
    // result starts with its ".." segments, if any
    ensures forall i, j :: 0 <= i < j < |r| && r[j] == ".." ==> r[i] == ".."
  {
    if parts == [] then []
    else
      var front, last := Normalize(parts[..|parts| - 1]), parts[|parts| - 1];
      if last == "" || last == "." then front
      else if last == ".." && front != [] && front[|front| - 1] != ".." then front[..|front| - 1]
      else front + [last]
  }

  /** A plain segment appended to a path is kept as the last segment. */
  lemma NormalizeAppendPlain(p: seq<string>, a: string)
    requires a != "" && a != "." && a != ".."
    ensures Normalize(p + [a]) == Normalize(p) + [a]
  {
    assert (p + [a])[..|p|] == p;
  }

  /** A plain segment followed by ".." cancels: the two leave the path as it was. */
  lemma NormalizeCancels(p: seq<string>, a: string)
    requires a != "" && a != "." && a != ".."
    ensures Normalize(p + [a, ".."]) == Normalize(p)
  {
    var q := p + [a, ".."];
    assert q[..|q| - 1] == p + [a] && q[|q| - 1] == "..";
    NormalizeAppendPlain(p, a);
    var front := Normalize(p + [a]);
    assert front[..|front| - 1] == Normalize(p);
  }

  /** Empty and "." segments are dropped. */
  lemma NormalizeDropsDot(p: seq<string>, a: string)
    requires a == "" || a == "."
    ensures Normalize(p + [a]) == Normalize(p)
  {
    assert (p + [a])[..|p|] == p;
  }

  /** The segments of the save path of "notes.txt" from room "x/../../app". */
  const EscapeSegments: seq<string> := ["Saved", "notes_room-x", "..", "..", "app.txt"]

  /**
   * The save of "notes.txt" from room "x/../../app", as written, is joined
   * onto `Saved` as "Saved/notes_room-x/../../app.txt", whose segments
   * normalize to "app.txt": a file of the uploads directory, outside `Saved`.
   */
  lemma RoomIdLeavesSaved()
    ensures SavedDir + "/" + RoomFileName("notes.txt", "x/../../app") == Join(EscapeSegments)
    ensures forall k :: 0 <= k < |EscapeSegments| ==> '/' !in EscapeSegments[k]
    ensures Normalize(EscapeSegments) == ["app.txt"]
  {
    RoomFileNameKeepsSlash();
    EscapeNameSegments();
    EscapeSegmentsJoin();
    EscapeSegmentsNormalize();
  }

  lemma EscapeNameSegments()
    ensures "Saved" + "/" + "notes_room-x/../../app.txt"
         == "Saved" + "/" + "notes_room-x" + "/" + ".." + "/" + ".." + "/" + "app.txt"
  {
  }

  /** The segments, each slash-free, join to the path. */
  lemma EscapeSegmentsJoin()
    ensures Join(EscapeSegments) == "Saved" + "/" + "notes_room-x" + "/" + ".." + "/" + ".." + "/" + "app.txt"
    ensures forall k :: 0 <= k < |EscapeSegments| ==> '/' !in EscapeSegments[k]
  {
    var s1 := ["Saved"];
    var s2 := s1 + ["notes_room-x"];
    var s3 := s2 + [".."];
    var s4 := s3 + [".."];
    var s5 := s4 + ["app.txt"];
    assert s2[..1] == s1;
    assert Join(s2) == "Saved" + "/" + "notes_room-x";
    assert s3[..2] == s2;
    assert Join(s3) == "Saved" + "/" + "notes_room-x" + "/" + "..";
    assert s4[..3] == s3;
    assert Join(s4) == "Saved" + "/" + "notes_room-x" + "/" + ".." + "/" + "..";
    assert s5[..4] == s4;
    assert s5 == EscapeSegments;
  }

  /** Each ".." removes the segment before it, and `Saved` with it. */
  lemma EscapeSegmentsNormalize()
    ensures Normalize(EscapeSegments) == ["app.txt"]
  {
    var s1 := ["Saved"];
    var s2 := s1 + ["notes_room-x"];
    var s3 := s2 + [".."];
    var s4 := s3 + [".."];
    var s5 := s4 + ["app.txt"];
    assert s1[..0] == [];
    assert Normalize(s1) == ["Saved"];
    assert s2[..1] == s1;
    assert Normalize(s2) == ["Saved", "notes_room-x"];
    assert s3[..2] == s2;
    assert Normalize(s3) == ["Saved"];
    assert s4[..3] == s3;
    assert Normalize(s4) == [];
    assert s5[..4] == s4;
    assert s5 == EscapeSegments;
  }

  /** `path.dirname` of a relative path: everything before its last slash. */
  function Dirname(p: string): (d: string)
    ensures |d| <= |p|
    ensures d == [] || (d == p[..|d|] && |d| < |p| && p[|d|] == '/')
    ensures d != [] ==> '/' !in p[|d| + 1..]
  {
    if p == [] then []
    else if p[|p| - 1] == '/' then p[..|p| - 1]
    else
      var d := Dirname(p[..|p| - 1]);
      assert d != [] ==> p[|d| + 1..] == p[..|p| - 1][|d| + 1..] + [p[|p| - 1]];
      d
  }

  /** The name of the `k`-th attempt of the save loop: the name itself, then the numbered ones. */
  function Attempt(final: string, k: nat): (name: string)
    requires '/' !in final
    ensures '/' !in name
    ensures k == 0 ==> name == final
    ensures k > 0 ==> name == Candidate(final, k)
  {
    if k == 0 then final else Candidate(final, k)
  }

  /** The attempts are pairwise different names. */
  lemma AttemptInjective(final: string, j: nat, k: nat)
    requires '/' !in final
    ensures Attempt(final, j) == Attempt(final, k) <==> j == k
  {
    if j > 0 {
      CandidateInjective(final, j, 0);
    }
    if k > 0 {
      CandidateInjective(final, k, 0);
    }
    if j > 0 && k > 0 {
      CandidateInjective(final, j, k);
    }
  }

  /**
   * `name` is the first attempt for `final` whose path in the `Saved`
   * directory is not `taken`: every earlier attempt was taken.
   */
  ghost predicate FirstFree(final: string, name: string, taken: set<string>)
  {
    && '/' !in final
    && exists n: nat ::
         && name == Attempt(final, n)
         && AttemptPath(final, n) !in taken
         && forall k: nat :: k < n ==> AttemptPath(final, k) in taken
  }

  /** The first free attempt is one name: the loop's answer is determined by what is taken. */
  lemma FirstFreeUnique(final: string, a: string, b: string, taken: set<string>)
    requires '/' !in final
    requires FirstFree(final, a, taken) && FirstFree(final, b, taken)
    ensures a == b
  {
    var m: nat :| a == Attempt(final, m)
      && AttemptPath(final, m) !in taken
      && forall k: nat :: k < m ==> AttemptPath(final, k) in taken;
    var n: nat :| b == Attempt(final, n)
      && AttemptPath(final, n) !in taken
      && forall k: nat :: k < n ==> AttemptPath(final, k) in taken;
    assert m == n;
  }

  /** A name that is free is kept as it is. */
  lemma FirstFreeKeepsFreeName(final: string, name: string, taken: set<string>)
    requires '/' !in final
    requires FirstFree(final, name, taken)
    requires JoinPath(SavedDir, final) !in taken
    ensures name == final
  {
    var n: nat :| name == Attempt(final, n)
      && AttemptPath(final, n) !in taken
      && forall k: nat :: k < n ==> AttemptPath(final, k) in taken;
    assert AttemptPath(final, 0) == JoinPath(SavedDir, final);
    assert n == 0;
  }

  /** The path of the `k`-th attempt in the `Saved` directory. */
  function AttemptPath(final: string, k: nat): string
    requires '/' !in final
  {
    JoinPath(SavedDir, Attempt(final, k))
  }

  /** The paths of the first `n` attempts, in the order the loop tries them. */
  function AttemptPaths(final: string, n: nat): (paths: seq<string>)
    requires '/' !in final
    ensures |paths| == n
  {
    if n == 0 then [] else AttemptPaths(final, n - 1) + [AttemptPath(final, n - 1)]
  }

  lemma {:induction false} AttemptPathsAt(final: string, n: nat, k: nat)
    requires '/' !in final && k < n
    ensures AttemptPaths(final, n)[k] == AttemptPath(final, k)
  {
    if k < n - 1 {
      AttemptPathsAt(final, n - 1, k);
    }
  }

  /** The path of the next attempt is none of the paths tried. */
  lemma NextAttemptIsNew(final: string, n: nat)
    requires '/' !in final
    ensures AttemptPath(final, n) !in AttemptPaths(final, n)
  {
    forall k | 0 <= k < n
      ensures AttemptPaths(final, n)[k] != AttemptPath(final, n)
    {
      AttemptPathsAt(final, n, k);
      AttemptPathsDiffer(final, k, n);
    }
  }

  /** Marking one more member of `taken` leaves fewer unmarked. */
  lemma FewerLeft(taken: set<string>, marked: set<string>, here: string)
    requires here in taken && here !in marked
    ensures |taken - (marked + {here})| < |taken - marked|
  {
    assert taken - marked == (taken - (marked + {here})) + {here};
  }

  /** The loop's exit: the attempt after the taken ones is the first free one. */
  lemma FirstFreeOfTried(final: string, n: nat, taken: set<string>)
    requires '/' !in final
    requires forall p :: p in AttemptPaths(final, n) ==> p in taken
    requires AttemptPath(final, n) !in taken
    ensures FirstFree(final, Attempt(final, n), taken)
  {
    forall k: nat | k < n
      ensures AttemptPath(final, k) in taken
    {
      AttemptPathsAt(final, n, k);
      assert AttemptPaths(final, n)[k] in AttemptPaths(final, n);
    }
  }

  /** What a successful request reports: the name used, its path and its size in bytes. */
  datatype FileInfo = FileInfo(name: string, path: string, size: nat)

  class Uploads {
    /** Every file under the uploads directory, with its content. */
    var files: map<string, string>
    /** Every directory under the uploads directory. */
    var dirs: set<string>

    /** The paths `fs.existsSync` finds: the uploads directory, its files and directories. */
    function Taken(): (paths: set<string>)
      reads this
      ensures "" in paths && files.Keys <= paths && dirs <= paths
      ensures forall p :: p in paths && p != "" && p !in dirs ==> p in files
    {
      files.Keys + dirs + {""}
    }

    constructor (files0: map<string, string>, dirs0: set<string>)
      ensures files == files0 && dirs == dirs0
    {
      files, dirs := files0, dirs0;
    }

    /**
     * The `while (fs.existsSync(actualFullPath))` loop of save-editor-file:
     * try the name, then `<stem>_1<ext>`, `<stem>_2<ext>`, ... and return the
     * first whose path is free. Nothing changes.
     */
    method FreeSavedName(final: string) returns (name: string)
      requires '/' !in final
      ensures '/' !in name
      ensures JoinPath(SavedDir, name) !in Taken()
      ensures JoinPath(SavedDir, final) !in Taken() ==> name == final
      ensures FirstFree(final, name, Taken())
    {
      name := final;
      var counter: nat := 1;
      // the paths tried so far, as a list and as a set
      ghost var tried: seq<string> := [];
      ghost var triedSet: set<string> := {};
      while JoinPath(SavedDir, name) in Taken()
        invariant counter >= 1
        invariant name == Attempt(final, counter - 1)
        invariant tried == AttemptPaths(final, counter - 1)
        invariant forall p :: p in tried ==> p in Taken()
        invariant triedSet <= Taken() && forall p :: p in triedSet ==> p in tried
        decreases |Taken() - triedSet|
      {
        ghost var here := AttemptPath(final, counter - 1);
        NextAttemptIsNew(final, counter - 1);
        FewerLeft(Taken(), triedSet, here);
        tried := tried + [here];
        triedSet := triedSet + {here};
        name := Candidate(final, counter);
        counter := counter + 1;
      }
      FirstFreeOfTried(final, counter - 1, Taken());
      if counter > 1 {
        AttemptPathsAt(final, counter - 1, 0);
        assert tried[0] in tried;
      }
    }

    /**
     * `POST /api/save-editor-file`: validate the name, make sure `Saved`
     * exists, add the room suffix, take the first free numbered name and
     * write the content there. A failed write leaves the files as they were.
     */
    method SaveEditorFile(filename: string, content: string, roomId: string, writeOk: bool)
      returns (r: Result<FileInfo, FileError>)
      modifies this
      ensures ValidateName(filename).Err? ==>
        r == Err(ValidateName(filename).error) && files == old(files) && dirs == old(dirs)
      ensures ValidateName(filename).Ok? && SavedFileName(ValidateName(filename).value, roomId).Err? ==>
        r == Err(InvalidRoom) && files == old(files) && dirs == old(dirs)
      ensures ValidateName(filename).Ok? && SavedFileName(ValidateName(filename).value, roomId).Ok? ==>
        var final := SavedFileName(ValidateName(filename).value, roomId).value;
        && dirs == old(dirs) + {SavedDir}
        && (!writeOk ==> r == Err(WriteFailed) && files == old(files))
        && (writeOk ==>
              && r.Ok?
              && FirstFree(final, r.value.name, old(Taken()) + {SavedDir})
              && r.value.path == JoinPath(SavedDir, r.value.name)
              && r.value.path !in old(Taken())
              && r.value.size == Utf8Length(content)
              && files == old(files)[r.value.path := content])
    {
      var v := ValidateName(filename);
      if v.Err? {
        return Err(v.error);
      }
      var clean := v.value;
      var named := SavedFileName(clean, roomId);
      if named.Err? {
        return Err(named.error);
      }
      dirs := dirs + {SavedDir};
      assert Taken() == old(Taken()) + {SavedDir};
      SavedFileNameIsOneComponent(clean, roomId);
      var name := FreeSavedName(named.value);
      if !writeOk {
        return Err(WriteFailed);
      }
      var path := JoinPath(SavedDir, name);
      files := files[path := content];
      r := Ok(FileInfo(name, path, Utf8Length(content)));
    }

    /**
     * `POST /api/create-file`: validate the name, refuse a path that exists,
     * make sure its directory exists and write the content there.
     */
    method CreateFile(name: string, currentPath: string, content: string, writeOk: bool)
      returns (r: Result<FileInfo, FileError>)
      modifies this
      ensures ValidateName(name).Err? ==>
        r == Err(ValidateName(name).error) && files == old(files) && dirs == old(dirs)
      ensures ValidateName(name).Ok? && JoinPath(currentPath, ValidateName(name).value) in old(Taken()) ==>
        r == Err(AlreadyExists) && files == old(files) && dirs == old(dirs)
      ensures ValidateName(name).Ok? && JoinPath(currentPath, ValidateName(name).value) !in old(Taken()) ==>
        var target := JoinPath(currentPath, ValidateName(name).value);
        && dirs == old(dirs) + {Dirname(target)}
        && (!writeOk ==> r == Err(WriteFailed) && files == old(files))
        && (writeOk ==> r == Ok(FileInfo(ValidateName(name).value, target, Utf8Length(content))) && files == old(files)[target := content])
    {
      var v := ValidateName(name);
      if v.Err? {
        return Err(v.error);
      }
      var fileName := v.value;
      var target := JoinPath(currentPath, fileName);
      if target in Taken() {
        return Err(AlreadyExists);
      }
      dirs := dirs + {Dirname(target)};
      if !writeOk {
        return Err(WriteFailed);
      }
      files := files[target := content];
      r := Ok(FileInfo(fileName, target, Utf8Length(content)));
    }
  }

  /** Different attempts are saved under different paths. */
  lemma AttemptPathsDiffer(final: string, j: nat, k: nat)
    requires '/' !in final && j != k
    ensures AttemptPath(final, j) != AttemptPath(final, k)
  {
    AttemptInjective(final, j, k);
    var a, b := Attempt(final, j), Attempt(final, k);
    if a != "." && b != "." && a != "" && b != "" {
      JoinPathInjective(SavedDir, a, b);
    } else {
      // "." names `Saved` itself, "" names `Saved/`: neither is a numbered name's path
      assert |JoinPath(SavedDir, a)| != |JoinPath(SavedDir, b)| || a == b;
    }
  }
}
