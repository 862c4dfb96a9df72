/** `FilePickerCache` of src/cache.ts: the last file picked, per directory
    path. The program keeps it in a mutable `Map`; here each operation
    returns the updated cache. */
module Cache {
  import opened Wrappers

  datatype FilePickerCache = FilePickerCache(lastSelectedFile: map<string, string>)

  /** `hasLastSelectedFile`: some file is stored under `path`. */
  function HasLastSelectedFile(c: FilePickerCache, path: string): (b: bool)
    ensures b <==> exists file :: (path, file) in c.lastSelectedFile.Items
  {
    assert path in c.lastSelectedFile ==> (path, c.lastSelectedFile[path]) in c.lastSelectedFile.Items;
    path in c.lastSelectedFile
  }

  /** The cache a new `FilePickerCache` starts with. */
  function New(): (c: FilePickerCache)
    ensures forall path :: !HasLastSelectedFile(c, path)
  {
    FilePickerCache(map[])
  }

  /** `getLastSelectedFile`: the stored file, `None` for `undefined`. */
  function GetLastSelectedFile(c: FilePickerCache, path: string): (r: Option<string>)
    ensures r.Some? <==> HasLastSelectedFile(c, path)
  {
    if path in c.lastSelectedFile then Some(c.lastSelectedFile[path]) else None
  }

  /** `storeSelectedFile`: `path` now yields `file`; every other path is as before. */
  function StoreSelectedFile(c: FilePickerCache, path: string, file: string): (r: FilePickerCache)
    ensures GetLastSelectedFile(r, path) == Some(file)
    ensures forall q :: q != path ==> GetLastSelectedFile(r, q) == GetLastSelectedFile(c, q)
  {
    FilePickerCache(c.lastSelectedFile[path := file])
  }

  /** `clearSelectedFile`: `path` yields nothing; every other path is as before. */
  function ClearSelectedFile(c: FilePickerCache, path: string): (r: FilePickerCache)
    ensures !HasLastSelectedFile(r, path) && GetLastSelectedFile(r, path) == None
    ensures forall q :: q != path ==> GetLastSelectedFile(r, q) == GetLastSelectedFile(c, q)
  {
    FilePickerCache(c.lastSelectedFile - {path})
  }

  /** Storing twice under one path keeps only the second file. */
  lemma StoreOverwrites(c: FilePickerCache, path: string, first: string, second: string)
    ensures StoreSelectedFile(StoreSelectedFile(c, path, first), path, second)
         == StoreSelectedFile(c, path, second)
  {
  }

  /** Clearing a path forgets whatever was stored under it. */
  lemma ClearUndoesStore(c: FilePickerCache, path: string, file: string)
    ensures ClearSelectedFile(StoreSelectedFile(c, path, file), path) == ClearSelectedFile(c, path)
  {
  }
}
