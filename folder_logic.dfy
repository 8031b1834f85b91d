/** Folder create, rename and delete (folder.py) as functions from one snapshot
    of the tables to the next. */
module FolderLogic {
  import opened Records
  import opened Store

  /** `folder.create`: the name is looked up before it is checked for emptiness. */
  function Create(s: State, name: string): (r: Step<Result<int>>)
    ensures NameTaken(s.folders, name) ==> r == Step(Err(FolderExists), s)
    ensures !NameTaken(s.folders, name) && name == "" ==> r == Step(Err(InvalidFolderName), s)
    ensures r.out.Ok? <==> !NameTaken(s.folders, name) && name != ""
    // on success exactly one folder, carrying the name, joins the table and nothing else changes
    ensures r.out.Ok? ==> && r.after.folders.Keys == s.folders.Keys + {r.out.value}
                          && r.after.folders[r.out.value] == Folder(r.out.value, name, false)
                          && (forall k :: k in s.folders && k != r.out.value ==> r.after.folders[k] == s.folders[k])
                          && r.after == s.(folders := r.after.folders, nextFolderId := r.after.nextFolderId)
  {
    if NameTaken(s.folders, name) then Step(Err(FolderExists), s)
    else if name == "" then Step(Err(InvalidFolderName), s)
    else
      var id := s.nextFolderId;
      Step(Ok(id), s.(folders := s.folders[id := Folder(id, name, false)], nextFolderId := id + 1))
  }

  /** `folder.rename`: missing folder, then a taken name (its own included), then the empty name. */
  function Rename(s: State, folderId: int, newName: string): (r: Step<Outcome>)
    ensures folderId !in s.folders ==> r == Step(Failed(NoFolder), s)
    ensures folderId in s.folders && NameTaken(s.folders, newName) ==> r == Step(Failed(FolderExists), s)
    ensures folderId in s.folders && !NameTaken(s.folders, newName) && newName == "" ==> r == Step(Failed(InvalidFolderName), s)
    ensures r.out.Done? <==> folderId in s.folders && !NameTaken(s.folders, newName) && newName != ""
    // on success only that folder's name changes
    ensures r.out.Done? ==> && r.after.folders.Keys == s.folders.Keys
                            && r.after.folders[folderId] == s.folders[folderId].(name := newName)
                            && (forall k :: k in s.folders && k != folderId ==> r.after.folders[k] == s.folders[k])
                            && r.after == s.(folders := r.after.folders)
  {
    if folderId !in s.folders then Step(Failed(NoFolder), s)
    else if NameTaken(s.folders, newName) then Step(Failed(FolderExists), s)
    else if newName == "" then Step(Failed(InvalidFolderName), s)
    else Step(Done, s.(folders := s.folders[folderId := s.folders[folderId].(name := newName)]))
  }

  /** `folder.delete`: the folder's feeds go with it; their articles stay. */
  function Delete(s: State, folderId: int): (r: Step<Outcome>)
    ensures folderId !in s.folders ==> r == Step(Failed(NoFolder), s)
    ensures folderId in s.folders ==> r.out == Done
    ensures folderId in s.folders ==> && r.after.folders == s.folders - {folderId}
                                      && (forall k :: k in r.after.feeds <==> k in s.feeds && s.feeds[k].folderId != folderId)
                                      && (forall k :: k in r.after.feeds ==> r.after.feeds[k] == s.feeds[k])
                                      && r.after == s.(folders := r.after.folders, feeds := r.after.feeds)
  {
    if folderId !in s.folders then Step(Failed(NoFolder), s)
    else
      var feeds := map k | k in s.feeds && s.feeds[k].folderId != folderId :: s.feeds[k];
      Step(Done, s.(folders := s.folders - {folderId}, feeds := feeds))
  }

  /** Creating a folder keeps the tables consistent: in particular the names stay unique,
      and the new folder takes an id no other folder holds. */
  lemma CreateKeepsConsistent(s: State, name: string, hash: Hasher)
    requires Consistent(s, hash)
    ensures Consistent(Create(s, name).after, hash)
    ensures Create(s, name).out.Ok? ==> Create(s, name).out.value !in s.folders
                                        && |Create(s, name).after.folders| == |s.folders| + 1
  {
    if !NameTaken(s.folders, name) && name != "" {
      var id := s.nextFolderId;
      var f := s.folders[id := Folder(id, name, false)];
      assert id !in s.folders;
      forall j, k | j in f && k in f && f[j].name == f[k].name ensures j == k {
        if j != k && (j == id || k == id) {
          assert false;
        }
      }
      assert FoldersValid(f, id + 1);
      assert FeedsValid(s.feeds, f, s.nextFeedId);
    }
  }

  lemma RenameKeepsConsistent(s: State, folderId: int, newName: string, hash: Hasher)
    requires Consistent(s, hash)
    ensures Consistent(Rename(s, folderId, newName).after, hash)
  {
    var r := Rename(s, folderId, newName);
    if r.out.Done? {
      var f := r.after.folders;
      forall j, k | j in f && k in f && f[j].name == f[k].name ensures j == k {
        if j != k && (j == folderId || k == folderId) {
          assert false;
        }
      }
    }
  }

  /** Deleting a folder leaves no feed pointing at it. */
  lemma DeleteKeepsConsistent(s: State, folderId: int, hash: Hasher)
    requires Consistent(s, hash)
    ensures Consistent(Delete(s, folderId).after, hash)
    ensures forall k :: k in Delete(s, folderId).after.feeds ==> Delete(s, folderId).after.feeds[k].folderId != folderId
  {
  }

  /** Renaming a folder to the name it already has reports that the folder exists. */
  lemma RenameToOwnNameFails(s: State, folderId: int)
    requires folderId in s.folders
    ensures Rename(s, folderId, s.folders[folderId].name) == Step(Failed(FolderExists), s)
  {
    assert NameTaken(s.folders, s.folders[folderId].name);
  }

  /** An empty name reports "exists" rather than "invalid" once a folder named "" is stored. */
  lemma EmptyNameCheckedAfterExistence(s: State, folderId: int)
    requires folderId in s.folders && s.folders[folderId].name == ""
    ensures Create(s, "").out == Err(FolderExists)
  {
    assert NameTaken(s.folders, "");
  }

  /** Creating and then renaming keeps names unique, starting from any consistent store. */
  lemma NamesStayUnique(s: State, name: string, folderId: int, newName: string, hash: Hasher)
    requires Consistent(s, hash)
    ensures var s2 := Rename(Create(s, name).after, folderId, newName).after;
            forall j, k :: j in s2.folders && k in s2.folders && j != k ==> s2.folders[j].name != s2.folders[k].name
  {
    CreateKeepsConsistent(s, name, hash);
    RenameKeepsConsistent(Create(s, name).after, folderId, newName, hash);
  }
}
