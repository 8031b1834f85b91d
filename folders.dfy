/** folder.py's operations on the database, each proved to leave the tables
    exactly as `FolderLogic` says and to keep them consistent. */
module Folders {
  import opened Records
  import opened Store
  import FolderLogic

  method Create(db: Database, name: string) returns (r: Result<int>)
    requires db.Valid()
    modifies db
    ensures db.Valid()
    ensures Step(r, db.Snapshot()) == FolderLogic.Create(old(db.Snapshot()), name)
  {
    FolderLogic.CreateKeepsConsistent(db.Snapshot(), name, db.hash);
    if NameTaken(db.folders, name) {
      return Err(FolderExists);
    }
    if name == "" {
      return Err(InvalidFolderName);
    }
    var id := db.nextFolderId;
    db.folders := db.folders[id := Folder(id, name, false)];
    db.nextFolderId := id + 1;
    r := Ok(id);
  }

  method Rename(db: Database, folderId: int, newName: string) returns (r: Outcome)
    requires db.Valid()
    modifies db
    ensures db.Valid()
    ensures Step(r, db.Snapshot()) == FolderLogic.Rename(old(db.Snapshot()), folderId, newName)
  {
    FolderLogic.RenameKeepsConsistent(db.Snapshot(), folderId, newName, db.hash);
    if folderId !in db.folders {
      return Failed(NoFolder);
    }
    if NameTaken(db.folders, newName) {
      return Failed(FolderExists);
    }
    if newName == "" {
      return Failed(InvalidFolderName);
    }
    db.folders := db.folders[folderId := db.folders[folderId].(name := newName)];
    r := Done;
  }

  /** Removes the folder's feeds, then the folder. */
  method Delete(db: Database, folderId: int) returns (r: Outcome)
    requires db.Valid()
    modifies db
    ensures db.Valid()
    ensures Step(r, db.Snapshot()) == FolderLogic.Delete(old(db.Snapshot()), folderId)
  {
    FolderLogic.DeleteKeepsConsistent(db.Snapshot(), folderId, db.hash);
    if folderId !in db.folders {
      return Failed(NoFolder);
    }
    db.feeds := map k | k in db.feeds && db.feeds[k].folderId != folderId :: db.feeds[k];
    db.folders := db.folders - {folderId};
    r := Done;
  }
}
