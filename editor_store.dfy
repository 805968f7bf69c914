/**
 * The durable side of the realtime editor (app.js, `autoSaveEditorContent`
 * and `loadEditorContent`): one text file per room in the uploads' `Editor`
 * directory. The directory is a map from file name to file content; a read
 * or write that the file system refuses is a boolean outcome passed in.
 */
module EditorStore {

  /** The files of the `Editor` directory: file name to content. */
  type Store = map<string, string>

  /** The room that an absent or empty identifier stands for. */
  const DefaultRoom: string := "default"

  /** `roomId || 'default'`: the room an identifier names. */
  function NormalizeRoom(roomId: string): (r: string)
    ensures r != ""
    ensures roomId != "" ==> r == roomId
    ensures roomId == "" ==> r == DefaultRoom
  {
    if roomId == "" then DefaultRoom else roomId
  }

  /** The reserved file of the default room. */
  const DefaultFile: string := "default.txt"

  /**
   * The file name a room identifier is stored under: the default room (named
   * or left empty) uses `default.txt`, every other room its id plus `.txt`.
   */
  function StorageKey(roomId: string): (key: string)
    ensures |key| >= 4 && key[|key| - 4..] == ".txt"
    ensures key == DefaultFile <==> roomId == "" || roomId == DefaultRoom
    ensures key[..|key| - 4] == NormalizeRoom(roomId)
  {
    if roomId == "" || roomId == DefaultRoom then DefaultFile else roomId + ".txt"
  }

  /** Two identifiers share a file exactly when they name the same room. */
  lemma StorageKeyInjective(a: string, b: string)
    ensures StorageKey(a) == StorageKey(b)
        <==> NormalizeRoom(a) == NormalizeRoom(b)
  {
    var ka, kb := StorageKey(a), StorageKey(b);
    if ka == kb {
      assert ka[..|ka| - 4] == kb[..|kb| - 4];
    }
  }

  /**
   * `loadEditorContent`: the stored text of the room when its file exists and
   * can be read, and the empty string otherwise.
   */
  function LoadContent(store: Store, roomId: string, readOk: bool): (content: string)
    ensures readOk && StorageKey(roomId) in store ==> content == store[StorageKey(roomId)]
    ensures !readOk || StorageKey(roomId) !in store ==> content == ""
  {
    var key := StorageKey(roomId);
    if readOk && key in store then store[key] else ""
  }

  /**
   * `autoSaveEditorContent`: overwrites the room's file with `content`; a
   * failed write is logged and leaves the directory as it was.
   */
  function SaveContent(store: Store, roomId: string, content: string, writeOk: bool): (saved: Store)
    ensures writeOk ==> saved.Keys == store.Keys + {StorageKey(roomId)}
    ensures writeOk ==> saved[StorageKey(roomId)] == content
    ensures forall key :: key in store && key != StorageKey(roomId) ==> key in saved && saved[key] == store[key]
    ensures !writeOk ==> saved == store
  {
    if writeOk then store[StorageKey(roomId) := content] else store
  }

  /** Loading a room after saving it gives back what was saved. */
  lemma LoadAfterSave(store: Store, roomId: string, content: string)
    ensures LoadContent(SaveContent(store, roomId, content, true), roomId, true) == content
  {
  }

  /** Saving one room does not change what another room loads. */
  lemma SaveIsolated(store: Store, saved: string, other: string, content: string, writeOk: bool, readOk: bool)
    requires NormalizeRoom(saved) != NormalizeRoom(other)
    ensures LoadContent(SaveContent(store, saved, content, writeOk), other, readOk)
         == LoadContent(store, other, readOk)
  {
    StorageKeyInjective(saved, other);
  }
}
