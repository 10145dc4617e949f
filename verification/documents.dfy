/** The document routes (Backend/routes/documents.js) as pure transitions
    over the store. Each mutating handler returns the next state together
    with its reply; every error path hands back the state it was given. */
module DocumentRoutes {
  import opened Wrappers
  import opened Seqs
  import opened DocumentSchema
  import opened UserFilesIndex

  /** The document collection keyed by `documentId`, and the per-user index. */
  datatype State = State(docs: map<string, Document>, files: Index)

  /** The error replies of the handlers. `SaveRejected` is a save refused by
      the database: a failed required-field validation or a unique-key clash. */
  datatype Error =
    | Unauthenticated
    | DocumentNotFound
    | UserNotFound
    | Forbidden
    | InvalidAccessLevel
    | SaveRejected

  /** The state after a handler, and what it replied. */
  datatype Outcome<T> = Outcome(state: State, reply: Result<T, Error>)

  /** Some stored document already has database id `ref`. */
  predicate RefInUse(docs: map<string, Document>, ref: DocRef)
  {
    exists k :: k in docs && docs[k].ref == ref
  }

  /** `b` is `a` with at most its access lists changed. */
  predicate SameExceptAccess(a: Document, b: Document)
  {
    b == a.(editorAccess := b.editorAccess, reviewerAccess := b.reviewerAccess, readerAccess := b.readerAccess)
  }

  /** `d` records `g` exactly once, in the list of level `l`, and in no other list. */
  predicate GrantedExactlyAt(d: Document, g: UserId, l: Level)
  {
    && multiset(AccessList(d, l))[g] == 1
    && forall m: Level :: m != l ==> g !in AccessList(d, m)
  }

  /** Apart from `g`, every access list of `b` lists the same users in the
      same order as the corresponding list of `a`. */
  predicate OthersKept(a: Document, b: Document, g: UserId)
  {
    forall m: Level :: Without(AccessList(b, m), g) == Without(AccessList(a, m), g)
  }

  /** POST /create. `caller` is the authenticated user, if any; `documentId`
      is the freshly generated public id, `ref` the database id the new record
      receives, and `now` the current instant. */
  function Create(s: State, caller: Option<UserId>, documentId: string, ref: DocRef, now: Time): (o: Outcome<string>)
    ensures caller.None? ==> o.reply == Failure(Unauthenticated)
    ensures caller.Some? && o.reply.Failure? ==> o.reply.error == SaveRejected
    ensures o.reply.Success? <==>
      caller.Some? && documentId != "" && documentId !in s.docs && !RefInUse(s.docs, ref)
    ensures o.reply.Failure? ==> o.state == s
    ensures o.reply.Success? ==>
      && o.reply.value == documentId
      && o.state.docs.Keys == s.docs.Keys + {documentId}
      && (forall k :: k in s.docs ==> o.state.docs[k] == s.docs[k])
    ensures o.reply.Success? ==>
      var d := o.state.docs[documentId];
      && d.documentId == documentId && d.ref == ref && d.author == caller.value
      && d.title == "Untitled Document" && d.content == ""
      && d.editorAccess == [] && d.reviewerAccess == [] && d.readerAccess == []
      && d.createdAt == now && d.lastModified == now && d.metadata == map[]
      && d.templateId.None?
    ensures o.reply.Success? ==>
      var u := caller.value;
      && o.state.files.Keys == s.files.Keys + {u}
      && o.state.files[u].filesCreated == EntryOf(s.files, u).filesCreated + [ref]
      && o.state.files[u].filesShared == EntryOf(s.files, u).filesShared
      && o.state.files[u].userId == EntryOf(s.files, u).userId
      && (forall v :: v in s.files && v != u ==> o.state.files[v] == s.files[v])
  {
    if caller.None? then Outcome(s, Failure(Unauthenticated))
    else
      var d := NewDocument(ref, documentId, caller.value, Some(DefaultTitle), Some(DefaultContent), None, now);
      if !Valid(d) || documentId in s.docs || RefInUse(s.docs, ref) then Outcome(s, Failure(SaveRejected))
      else Outcome(State(s.docs[documentId := d], PushCreated(s.files, caller.value, ref)), Success(documentId))
  }

  /** GET /recent, before resolving refs: the caller's created list, or
      nothing when the caller has no index entry. */
  function RecentFiles(s: State, u: UserId): (r: seq<DocRef>)
    ensures u !in s.files ==> r == []
    ensures u in s.files ==> r == s.files[u].filesCreated
  {
    EntryOf(s.files, u).filesCreated
  }

  /** GET /shared, before resolving refs: the caller's shared list, or
      nothing when the caller has no index entry. */
  function SharedFiles(s: State, u: UserId): (r: seq<DocRef>)
    ensures u !in s.files ==> r == []
    ensures u in s.files ==> r == s.files[u].filesShared
  {
    EntryOf(s.files, u).filesShared
  }

  /** GET /:documentId. */
  function Get(s: State, documentId: string): (r: Result<Document, Error>)
    ensures r.Failure? <==> documentId !in s.docs
    ensures r.Failure? ==> r.error == DocumentNotFound
    ensures r.Success? ==> r.value == s.docs[documentId]
  {
    if documentId in s.docs then Success(s.docs[documentId]) else Failure(DocumentNotFound)
  }

  /** PUT /:documentId: overwrite title and content and stamp the time. */
  function Update(s: State, documentId: string, title: string, content: string, now: Time): (o: Outcome<Document>)
    ensures o.reply.Failure? <==> documentId !in s.docs
    ensures o.reply.Failure? ==> o.reply.error == DocumentNotFound && o.state == s
    ensures o.reply.Success? ==>
      && o.state.files == s.files
      && o.state.docs.Keys == s.docs.Keys
      && (forall k :: k in s.docs && k != documentId ==> o.state.docs[k] == s.docs[k])
      && o.state.docs[documentId] == o.reply.value
    ensures o.reply.Success? ==>
      var d, d' := s.docs[documentId], o.reply.value;
      && d'.title == title && d'.content == content && d'.lastModified == now
      && d'.ref == d.ref && d'.documentId == d.documentId && d'.author == d.author
      && d'.editorAccess == d.editorAccess && d'.reviewerAccess == d.reviewerAccess
      && d'.readerAccess == d.readerAccess
      && d'.createdAt == d.createdAt && d'.templateId == d.templateId && d'.metadata == d.metadata
  {
    if documentId !in s.docs then Outcome(s, Failure(DocumentNotFound))
    else
      var d' := s.docs[documentId].(title := title, content := content, lastModified := now);
      Outcome(State(s.docs[documentId := d'], s.files), Success(d'))
  }

  /** Takes `g` out of all three access lists. */
  function Strip(d: Document, g: UserId): (r: Document)
    ensures SameExceptAccess(d, r)
    ensures forall m: Level :: AccessList(r, m) == Without(AccessList(d, m), g)
  {
    d.(editorAccess := Without(d.editorAccess, g),
       reviewerAccess := Without(d.reviewerAccess, g),
       readerAccess := Without(d.readerAccess, g))
  }

  /** Appends `g` to the access list of level `l`. */
  function Push(d: Document, l: Level, g: UserId): (r: Document)
    ensures SameExceptAccess(d, r)
    ensures AccessList(r, l) == AccessList(d, l) + [g]
    ensures forall m: Level :: m != l ==> AccessList(r, m) == AccessList(d, m)
  {
    match l
    case Editor => d.(editorAccess := d.editorAccess + [g])
    case Reviewer => d.(reviewerAccess := d.reviewerAccess + [g])
    case Reader => d.(readerAccess := d.readerAccess + [g])
  }

  /** The access lists of a share at level `l`: `g` moved to the end of the
      list for `l` and absent from the other two, everyone else in place. */
  lemma StripPush(d: Document, l: Level, g: UserId)
    ensures GrantedExactlyAt(Push(Strip(d, g), l, g), g, l)
    ensures OthersKept(d, Push(Strip(d, g), l, g), g)
  {
    var r := Push(Strip(d, g), l, g);
    NoDupPush(Without(AccessList(d, l), g), g);
    forall m: Level
      ensures Without(AccessList(r, m), g) == Without(AccessList(d, m), g)
    {
      if m == l {
        WithoutPushed(AccessList(d, l), g);
      }
    }
  }

  /** POST /:documentId/share. `users` is the user directory, from email
      address to user id; `caller` is the authenticated user; `accessLevel`
      is the requested level as sent. */
  function Share(s: State, users: map<string, UserId>, caller: UserId, documentId: string,
                 email: string, accessLevel: string): (o: Outcome<Document>)
    ensures documentId !in s.docs ==> o.reply == Failure(DocumentNotFound)
    ensures documentId in s.docs && s.docs[documentId].author != caller ==>
      o.reply == Failure(Forbidden)
    ensures documentId in s.docs && s.docs[documentId].author == caller && email !in users ==>
      o.reply == Failure(UserNotFound)
    ensures (documentId in s.docs && s.docs[documentId].author == caller && email in users
             && ParseLevel(accessLevel).None?) ==> o.reply == Failure(InvalidAccessLevel)
    ensures o.reply.Success? <==>
      && documentId in s.docs && s.docs[documentId].author == caller
      && email in users && ParseLevel(accessLevel).Some?
    ensures o.reply.Failure? ==> o.state == s
    ensures o.reply.Success? ==> o.state.docs == s.docs[documentId := o.reply.value]
    ensures o.reply.Success? ==>
      var d, d', g, l := s.docs[documentId], o.reply.value, users[email], ParseLevel(accessLevel).value;
      && SameExceptAccess(d, d')
      && GrantedExactlyAt(d', g, l)
      && OthersKept(d, d', g)
      && AccessList(d', l) == Without(AccessList(d, l), g) + [g]
    ensures o.reply.Success? ==>
      var ref, g := s.docs[documentId].ref, users[email];
      && o.state.files.Keys == s.files.Keys + {g}
      && (forall x :: x in o.state.files[g].filesShared <==> x in EntryOf(s.files, g).filesShared || x == ref)
      && o.state.files[g].filesCreated == EntryOf(s.files, g).filesCreated
      && o.state.files[g].userId == EntryOf(s.files, g).userId
      && (ref in EntryOf(s.files, g).filesShared ==> o.state.files == s.files)
      && (ref !in EntryOf(s.files, g).filesShared ==>
            o.state.files[g].filesShared == EntryOf(s.files, g).filesShared + [ref])
      && (NoDup(EntryOf(s.files, g).filesShared) ==> NoDup(o.state.files[g].filesShared))
      && (forall v :: v in s.files && v != g ==> o.state.files[v] == s.files[v])
  {
    if documentId !in s.docs then Outcome(s, Failure(DocumentNotFound))
    else
      var d := s.docs[documentId];
      if d.author != caller then Outcome(s, Failure(Forbidden))
      else if email !in users then Outcome(s, Failure(UserNotFound))
      else
        var g := users[email];
        var stripped := Strip(d, g);
        match ParseLevel(accessLevel)
        case None => Outcome(s, Failure(InvalidAccessLevel))
        case Some(l) =>
          var d' := Push(stripped, l, g);
          StripPush(d, l, g);
          Outcome(State(s.docs[documentId := d'], AddShared(s.files, g, d.ref)), Success(d'))
  }
}
