/** The `Document` record of the document store (Backend/models/Document.js):
    its fields, the defaults the schema fills in, and the access levels a
    document can grant. */
module DocumentSchema {
  import opened Wrappers
  import opened Seqs

  /** A database object id. Users and documents are both addressed by one. */
  type ObjectId = nat

  /** The id of a user record. */
  type UserId = ObjectId

  /** The database `_id` of a document: what the per-user indexes store. */
  type DocRef = ObjectId

  /** The opaque owner-supplied key-value bag. */
  type Metadata = map<string, string>

  /** Timestamps are abstract instants supplied by the caller. */
  type Time = nat

  const DefaultTitle: string := "Untitled Document"
  const DefaultContent: string := ""

  /** One stored document. `documentId` is the public, externally addressable
      id; `ref` is the database `_id` the indexes point to. */
  datatype Document = Document(
    ref: DocRef,
    documentId: string,
    author: UserId,
    editorAccess: seq<UserId>,
    reviewerAccess: seq<UserId>,
    readerAccess: seq<UserId>,
    title: string,
    content: string,
    createdAt: Time,
    lastModified: Time,
    templateId: Option<string>,
    metadata: Metadata)

  /** The schema's own validation on save: `documentId` is required, and a
      required string is rejected when empty. `author` is required too; its
      type here always holds a value. */
  predicate Valid(d: Document)
  {
    d.documentId != ""
  }

  /** The three graded access levels a document can grant. */
  datatype Level = Editor | Reviewer | Reader

  /** The wire name of a level, as a share request spells it. */
  function LevelName(l: Level): string
  {
    match l
    case Editor => "editor"
    case Reviewer => "reviewer"
    case Reader => "reader"
  }

  /** Reads a requested access level; any other string names no level. */
  function ParseLevel(s: string): (r: Option<Level>)
    ensures r.Some? ==> LevelName(r.value) == s
    ensures r.None? ==> forall l: Level :: LevelName(l) != s
  {
    if s == "editor" then Some(Editor)
    else if s == "reviewer" then Some(Reviewer)
    else if s == "reader" then Some(Reader)
    else None
  }

  /** Every level's name reads back as that level. */
  lemma ParseLevelName(l: Level)
    ensures ParseLevel(LevelName(l)) == Some(l)
  {
  }

  /** The access list that records the users granted level `l`. */
  function AccessList(d: Document, l: Level): seq<UserId>
  {
    match l
    case Editor => d.editorAccess
    case Reviewer => d.reviewerAccess
    case Reader => d.readerAccess
  }

  /** `u` is recorded in at least one of the three access lists. */
  predicate HasAccess(d: Document, u: UserId)
  {
    u in d.editorAccess || u in d.reviewerAccess || u in d.readerAccess
  }

  /** The access lists are in the shape sharing maintains: no user twice in a
      list, and no user in two lists. */
  predicate AccessConsistent(d: Document)
  {
    && NoDup(d.editorAccess) && NoDup(d.reviewerAccess) && NoDup(d.readerAccess)
    && Disjoint(d.editorAccess, d.reviewerAccess)
    && Disjoint(d.editorAccess, d.readerAccess)
    && Disjoint(d.reviewerAccess, d.readerAccess)
  }

  /** `new Document({...})`: the fields a caller leaves out take the schema's
      defaults, both timestamps default to the construction instant `now`,
      and the access lists start out empty. */
  function NewDocument(ref: DocRef, documentId: string, author: UserId,
                       title: Option<string>, content: Option<string>,
                       metadata: Option<Metadata>, now: Time): (d: Document)
    ensures d.ref == ref && d.documentId == documentId && d.author == author
    ensures d.title == (if title.Some? then title.value else DefaultTitle)
    ensures d.content == (if content.Some? then content.value else DefaultContent)
    ensures d.metadata == (if metadata.Some? then metadata.value else map[])
    ensures d.createdAt == now && d.lastModified == now
    ensures d.templateId.None?
    ensures forall l: Level :: AccessList(d, l) == []
    ensures forall u :: !HasAccess(d, u)
    ensures AccessConsistent(d)
    ensures Valid(d) <==> documentId != ""
  {
    Document(
      ref, documentId, author,
      [], [], [],
      match title case Some(t) => t case None => DefaultTitle,
      match content case Some(c) => c case None => DefaultContent,
      now, now,
      None,
      match metadata case Some(m) => m case None => map[])
  }
}
