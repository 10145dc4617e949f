/** The per-user document index: for each user, the documents they created
    and the documents shared with them, as lists of document refs. Entries
    are created lazily, on the first document a user creates or receives. */
module UserFilesIndex {
  import opened Seqs
  import opened DocumentSchema

  datatype UserFiles = UserFiles(userId: UserId, filesCreated: seq<DocRef>, filesShared: seq<DocRef>)

  /** All index entries, keyed by the user they belong to. */
  type Index = map<UserId, UserFiles>

  /** The entry of `u`, or the fresh empty entry a new record would start as. */
  function EntryOf(files: Index, u: UserId): (e: UserFiles)
    ensures u in files ==> e == files[u]
    ensures u !in files ==> e == UserFiles(u, [], [])
  {
    if u in files then files[u] else UserFiles(u, [], [])
  }

  /** Upsert that appends `ref` to the created list of `u`, making the entry
      if there is none (the `$push` with `upsert` in document creation). */
  function PushCreated(files: Index, u: UserId, ref: DocRef): (r: Index)
    ensures r.Keys == files.Keys + {u}
    ensures r[u].filesCreated == EntryOf(files, u).filesCreated + [ref]
    ensures r[u].filesShared == EntryOf(files, u).filesShared
    ensures r[u].userId == EntryOf(files, u).userId
    ensures forall v :: v in files && v != u ==> r[v] == files[v]
  {
    var e := EntryOf(files, u);
    files[u := e.(filesCreated := e.filesCreated + [ref])]
  }

  /** Records that `ref` is shared with `u`: the entry is made if there is
      none, and `ref` is appended only when the shared list lacks it. */
  function AddShared(files: Index, u: UserId, ref: DocRef): (r: Index)
    ensures r.Keys == files.Keys + {u}
    ensures ref in r[u].filesShared
    ensures r[u].filesCreated == EntryOf(files, u).filesCreated
    ensures r[u].userId == EntryOf(files, u).userId
    ensures forall x :: x in r[u].filesShared <==> x in EntryOf(files, u).filesShared || x == ref
    ensures ref in EntryOf(files, u).filesShared ==> r == files
    ensures ref !in EntryOf(files, u).filesShared ==> r[u].filesShared == EntryOf(files, u).filesShared + [ref]
    ensures NoDup(EntryOf(files, u).filesShared) ==> NoDup(r[u].filesShared)
    ensures forall v :: v in files && v != u ==> r[v] == files[v]
  {
    var e := EntryOf(files, u);
    if ref in e.filesShared then files
    else
      NoDupPush(e.filesShared, ref);
      files[u := e.(filesShared := e.filesShared + [ref])]
  }
}
