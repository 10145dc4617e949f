/** The consistency the routes keep between the document collection and the
    per-user index: every record is stored under its own `documentId`,
    database ids are unique, access lists are duplicate-free and disjoint,
    and a ref is in a user's created (shared) list exactly when that user
    authored (holds access to) the document. Every handler preserves it. */
module StoreInvariants {
  import opened Wrappers
  import opened Seqs
  import opened DocumentSchema
  import opened UserFilesIndex
  import opened DocumentRoutes

  /** Each record sits under its own `documentId`, passes the schema's
      validation, and has consistent access lists. */
  ghost predicate DocsKeyed(s: State)
  {
    forall k :: k in s.docs ==>
      s.docs[k].documentId == k && Valid(s.docs[k]) && AccessConsistent(s.docs[k])
  }

  /** No two stored documents share a database id. */
  ghost predicate RefsUnique(s: State)
  {
    forall k1, k2 :: k1 in s.docs && k2 in s.docs && s.docs[k1].ref == s.docs[k2].ref ==> k1 == k2
  }

  /** Each index entry belongs to the user it is filed under, and neither of
      its lists names a document twice. */
  ghost predicate EntriesKeyed(s: State)
  {
    forall u :: u in s.files ==>
      s.files[u].userId == u && NoDup(s.files[u].filesCreated) && NoDup(s.files[u].filesShared)
  }

  /** `u` is the author of the stored document with database id `r`. */
  ghost predicate Authored(s: State, u: UserId, r: DocRef)
  {
    exists k :: k in s.docs && s.docs[k].ref == r && s.docs[k].author == u
  }

  /** `u` is in an access list of the stored document with database id `r`. */
  ghost predicate Granted(s: State, u: UserId, r: DocRef)
  {
    exists k :: k in s.docs && s.docs[k].ref == r && HasAccess(s.docs[k], u)
  }

  /** The created lists record exactly the authorship of stored documents. */
  ghost predicate CreatedIndexed(s: State)
  {
    && (forall k :: k in s.docs ==>
          s.docs[k].author in s.files && s.docs[k].ref in s.files[s.docs[k].author].filesCreated)
    && (forall u, r :: u in s.files && r in s.files[u].filesCreated ==> Authored(s, u, r))
  }

  /** The shared lists record exactly the access grants of stored documents. */
  ghost predicate SharedIndexed(s: State)
  {
    && (forall k, u :: k in s.docs && HasAccess(s.docs[k], u) ==>
          u in s.files && s.docs[k].ref in s.files[u].filesShared)
    && (forall u, r :: u in s.files && r in s.files[u].filesShared ==> Granted(s, u, r))
  }

  ghost predicate Consistent(s: State)
  {
    DocsKeyed(s) && RefsUnique(s) && EntriesKeyed(s) && CreatedIndexed(s) && SharedIndexed(s)
  }

  /** The empty store is consistent. */
  lemma EmptyConsistent()
    ensures Consistent(State(map[], map[]))
  {
  }

  /** A consistent store holds at most one document per `documentId`, and a
      lookup returns the record with the requested id. */
  lemma GetReturnsRequested(s: State, documentId: string)
    requires Consistent(s)
    ensures forall k :: k in s.docs && s.docs[k].documentId == documentId ==> k == documentId
    ensures Get(s, documentId).Success? ==>
      Get(s, documentId).value.documentId == documentId && Valid(Get(s, documentId).value)
  {
  }

  /** In a consistent store, the created list of `u` names exactly the
      documents `u` authored, each once. */
  lemma RecentIsAuthored(s: State, u: UserId, r: DocRef)
    requires Consistent(s)
    ensures r in RecentFiles(s, u) <==> Authored(s, u, r)
    ensures NoDup(RecentFiles(s, u))
  {
    CreatedListed(s, u, r);
  }

  lemma CreatedListed(s: State, u: UserId, r: DocRef)
    requires CreatedIndexed(s) && EntriesKeyed(s)
    ensures r in RecentFiles(s, u) <==> Authored(s, u, r)
    ensures NoDup(RecentFiles(s, u))
  {
    if Authored(s, u, r) {
      var k :| k in s.docs && s.docs[k].ref == r && s.docs[k].author == u;
    }
  }

  /** In a consistent store, the shared list of `u` names exactly the
      documents `u` was granted access to, each once. */
  lemma SharedIsGranted(s: State, u: UserId, r: DocRef)
    requires Consistent(s)
    ensures r in SharedFiles(s, u) <==> Granted(s, u, r)
    ensures NoDup(SharedFiles(s, u))
  {
    SharedListed(s, u, r);
  }

  lemma SharedListed(s: State, u: UserId, r: DocRef)
    requires SharedIndexed(s) && EntriesKeyed(s)
    ensures r in SharedFiles(s, u) <==> Granted(s, u, r)
    ensures NoDup(SharedFiles(s, u))
  {
    if Granted(s, u, r) {
      var k :| k in s.docs && s.docs[k].ref == r && HasAccess(s.docs[k], u);
    }
  }

  /** A brand-new document: no access granted, and valid under the schema. */
  ghost predicate Pristine(d: Document)
  {
    d.editorAccess == [] && d.reviewerAccess == [] && d.readerAccess == [] && Valid(d)
  }

  /** The index side of a creation: `d.author` gets `d.ref` on its created list. */
  ghost predicate Inserted(s: State, s': State, d: Document)
  {
    && d.documentId !in s.docs && !RefInUse(s.docs, d.ref) && Pristine(d)
    && s'.docs == s.docs[d.documentId := d]
    && s'.files == PushCreated(s.files, d.author, d.ref)
  }

  lemma InsertedDocsKeyed(s: State, s': State, d: Document)
    requires DocsKeyed(s) && Inserted(s, s', d)
    ensures DocsKeyed(s') && RefsUnique(s) ==> RefsUnique(s')
  {
    assert AccessConsistent(d);
  }

  lemma InsertedEntriesKeyed(s: State, s': State, d: Document)
    requires EntriesKeyed(s) && CreatedIndexed(s) && Inserted(s, s', d)
    ensures EntriesKeyed(s')
  {
    var u := d.author;
    if u in s.files {
      assert d.ref !in s.files[u].filesCreated;
      NoDupPush(s.files[u].filesCreated, d.ref);
    }
  }

  lemma InsertedCreatedIndexed(s: State, s': State, d: Document)
    requires CreatedIndexed(s) && Inserted(s, s', d)
    ensures CreatedIndexed(s')
  {
    forall u, r | u in s'.files && r in s'.files[u].filesCreated
      ensures Authored(s', u, r)
    {
      if u == d.author && r == d.ref {
        assert s'.docs[d.documentId] == d;
      } else {
        assert r in EntryOf(s.files, u).filesCreated;
        var k :| k in s.docs && s.docs[k].ref == r && s.docs[k].author == u;
        assert s'.docs[k] == s.docs[k];
      }
    }
  }

  lemma InsertedSharedIndexed(s: State, s': State, d: Document)
    requires SharedIndexed(s) && Inserted(s, s', d)
    ensures SharedIndexed(s')
  {
    forall u, r | u in s'.files && r in s'.files[u].filesShared
      ensures Granted(s', u, r)
    {
      assert r in EntryOf(s.files, u).filesShared;
      var k :| k in s.docs && s.docs[k].ref == r && HasAccess(s.docs[k], u);
      assert s'.docs[k] == s.docs[k];
    }
    forall k, v | k in s'.docs && HasAccess(s'.docs[k], v)
      ensures v in s'.files && s'.docs[k].ref in s'.files[v].filesShared
    {
      assert k != d.documentId;
      assert s'.docs[k] == s.docs[k];
    }
  }

  /** Creating a document keeps a consistent store consistent. */
  lemma CreatePreservesConsistent(s: State, caller: Option<UserId>, documentId: string, ref: DocRef, now: Time)
    requires Consistent(s)
    ensures Consistent(Create(s, caller, documentId, ref, now).state)
  {
    var o := Create(s, caller, documentId, ref, now);
    if o.reply.Success? {
      var d := o.state.docs[documentId];
      assert Inserted(s, o.state, d);
      InsertedDocsKeyed(s, o.state, d);
      InsertedEntriesKeyed(s, o.state, d);
      InsertedCreatedIndexed(s, o.state, d);
      InsertedSharedIndexed(s, o.state, d);
    }
  }

  /** `b` is `a` with at most its title, content and modification time changed. */
  ghost predicate Edited(a: Document, b: Document)
  {
    b == a.(title := b.title, content := b.content, lastModified := b.lastModified)
  }

  /** The state change of a successful update of document `k0`. */
  ghost predicate Rewritten(s: State, s': State, k0: string)
  {
    && k0 in s.docs && k0 in s'.docs
    && Edited(s.docs[k0], s'.docs[k0])
    && s'.docs == s.docs[k0 := s'.docs[k0]]
    && s'.files == s.files
  }

  lemma RewrittenDocsKeyed(s: State, s': State, k0: string)
    requires DocsKeyed(s) && RefsUnique(s) && Rewritten(s, s', k0)
    ensures DocsKeyed(s') && RefsUnique(s')
  {
    assert AccessConsistent(s.docs[k0]);
  }

  lemma RewrittenCreatedIndexed(s: State, s': State, k0: string)
    requires CreatedIndexed(s) && Rewritten(s, s', k0)
    ensures CreatedIndexed(s')
  {
    forall u, r | u in s'.files && r in s'.files[u].filesCreated
      ensures Authored(s', u, r)
    {
      var k :| k in s.docs && s.docs[k].ref == r && s.docs[k].author == u;
      assert s'.docs[k].ref == r && s'.docs[k].author == u;
    }
  }

  lemma RewrittenSharedIndexed(s: State, s': State, k0: string)
    requires SharedIndexed(s) && Rewritten(s, s', k0)
    ensures SharedIndexed(s')
  {
    forall u, r | u in s'.files && r in s'.files[u].filesShared
      ensures Granted(s', u, r)
    {
      var k :| k in s.docs && s.docs[k].ref == r && HasAccess(s.docs[k], u);
      assert s'.docs[k].ref == r && HasAccess(s'.docs[k], u);
    }
    forall k, u | k in s'.docs && HasAccess(s'.docs[k], u)
      ensures u in s'.files && s'.docs[k].ref in s'.files[u].filesShared
    {
      assert HasAccess(s.docs[k], u);
    }
  }

  /** Updating a document keeps a consistent store consistent. */
  lemma UpdatePreservesConsistent(s: State, documentId: string, title: string, content: string, now: Time)
    requires Consistent(s)
    ensures Consistent(Update(s, documentId, title, content, now).state)
  {
    var o := Update(s, documentId, title, content, now);
    if o.reply.Success? {
      assert Rewritten(s, o.state, documentId);
      RewrittenDocsKeyed(s, o.state, documentId);
      RewrittenCreatedIndexed(s, o.state, documentId);
      RewrittenSharedIndexed(s, o.state, documentId);
    }
  }

  /** Apart from `g`, the lists of `a` and `b` grant access to the same users. */
  lemma OthersKeptAccess(a: Document, b: Document, g: UserId, u: UserId)
    requires OthersKept(a, b, g) && u != g
    ensures HasAccess(a, u) <==> HasAccess(b, u)
  {
    forall m: Level
      ensures u in AccessList(a, m) <==> u in AccessList(b, m)
    {
      assert Without(AccessList(b, m), g) == Without(AccessList(a, m), g);
    }
    assert AccessList(a, Editor) == a.editorAccess && AccessList(b, Editor) == b.editorAccess;
    assert AccessList(a, Reviewer) == a.reviewerAccess && AccessList(b, Reviewer) == b.reviewerAccess;
    assert AccessList(a, Reader) == a.readerAccess && AccessList(b, Reader) == b.readerAccess;
  }

  /** Sharing keeps every access list duplicate-free. */
  lemma ShareKeepsNoDup(a: Document, b: Document, g: UserId, l: Level, m: Level)
    requires NoDup(AccessList(a, m)) && GrantedExactlyAt(b, g, l) && OthersKept(a, b, g)
    ensures NoDup(AccessList(b, m))
  {
    var w := Without(AccessList(b, m), g);
    assert w == Without(AccessList(a, m), g);
    forall y | y in AccessList(b, m)
      ensures multiset(AccessList(b, m))[y] <= 1
    {
      if y != g {
        assert multiset(AccessList(b, m))[y] == multiset(w)[y] == multiset(AccessList(a, m))[y];
      }
    }
  }

  /** Sharing keeps two distinct access lists disjoint. */
  lemma ShareKeepsDisjoint(a: Document, b: Document, g: UserId, l: Level, m1: Level, m2: Level)
    requires m1 != m2 && Disjoint(AccessList(a, m1), AccessList(a, m2))
    requires GrantedExactlyAt(b, g, l) && OthersKept(a, b, g)
    ensures Disjoint(AccessList(b, m1), AccessList(b, m2))
  {
    forall y | y in AccessList(b, m1)
      ensures y !in AccessList(b, m2)
    {
      if y != g {
        assert y in Without(AccessList(b, m1), g);
        assert y !in Without(AccessList(a, m2), g);
        assert y !in Without(AccessList(b, m2), g);
      }
    }
  }

  /** Sharing keeps access lists duplicate-free and pairwise disjoint. */
  lemma ShareKeepsAccessConsistent(a: Document, b: Document, g: UserId, l: Level)
    requires AccessConsistent(a) && GrantedExactlyAt(b, g, l) && OthersKept(a, b, g)
    ensures AccessConsistent(b)
  {
    ShareKeepsNoDup(a, b, g, l, Editor);
    ShareKeepsNoDup(a, b, g, l, Reviewer);
    ShareKeepsNoDup(a, b, g, l, Reader);
    ShareKeepsDisjoint(a, b, g, l, Editor, Reviewer);
    ShareKeepsDisjoint(a, b, g, l, Editor, Reader);
    ShareKeepsDisjoint(a, b, g, l, Reviewer, Reader);
  }

  /** The state change of a successful share of document `k0` with `g`. */
  ghost predicate Regranted(s: State, s': State, k0: string, g: UserId)
  {
    && k0 in s.docs && k0 in s'.docs
    && SameExceptAccess(s.docs[k0], s'.docs[k0])
    && HasAccess(s'.docs[k0], g)
    && OthersKept(s.docs[k0], s'.docs[k0], g)
    && s'.docs == s.docs[k0 := s'.docs[k0]]
    && s'.files == AddShared(s.files, g, s.docs[k0].ref)
  }

  lemma RegrantedCreatedIndexed(s: State, s': State, k0: string, g: UserId)
    requires CreatedIndexed(s) && Regranted(s, s', k0, g)
    ensures CreatedIndexed(s')
  {
    forall u, r | u in s'.files && r in s'.files[u].filesCreated
      ensures Authored(s', u, r)
    {
      assert r in EntryOf(s.files, u).filesCreated;
      var k :| k in s.docs && s.docs[k].ref == r && s.docs[k].author == u;
      assert s'.docs[k].ref == r && s'.docs[k].author == u;
    }
  }

  lemma RegrantedSharedComplete(s: State, s': State, k0: string, g: UserId)
    requires SharedIndexed(s) && Regranted(s, s', k0, g)
    ensures forall u, r :: u in s'.files && r in s'.files[u].filesShared ==> Granted(s', u, r)
  {
    var d, d' := s.docs[k0], s'.docs[k0];
    forall u, r | u in s'.files && r in s'.files[u].filesShared
      ensures Granted(s', u, r)
    {
      if u == g && r == d.ref {
        assert s'.docs[k0].ref == r && HasAccess(s'.docs[k0], u);
      } else {
        assert r in EntryOf(s.files, u).filesShared;
        var k :| k in s.docs && s.docs[k].ref == r && HasAccess(s.docs[k], u);
        if k == k0 {
          if u != g {
            OthersKeptAccess(d, d', g, u);
          }
          assert s'.docs[k].ref == r && HasAccess(s'.docs[k], u);
        } else {
          assert s'.docs[k] == s.docs[k];
        }
      }
    }
  }

  lemma RegrantedSharedSound(s: State, s': State, k0: string, g: UserId)
    requires SharedIndexed(s) && Regranted(s, s', k0, g)
    ensures forall k, u :: k in s'.docs && HasAccess(s'.docs[k], u) ==>
              u in s'.files && s'.docs[k].ref in s'.files[u].filesShared
  {
    var d, d' := s.docs[k0], s'.docs[k0];
    forall k, u | k in s'.docs && HasAccess(s'.docs[k], u)
      ensures u in s'.files && s'.docs[k].ref in s'.files[u].filesShared
    {
      if k == k0 && u != g {
        OthersKeptAccess(d, d', g, u);
        assert s.docs[k].ref in EntryOf(s.files, u).filesShared;
      } else if k != k0 {
        assert s'.docs[k] == s.docs[k];
        assert s.docs[k].ref in EntryOf(s.files, u).filesShared;
      }
    }
  }

  lemma RegrantedDocsKeyed(s: State, s': State, k0: string, g: UserId)
    requires DocsKeyed(s) && RefsUnique(s) && Regranted(s, s', k0, g)
    requires AccessConsistent(s'.docs[k0])
    ensures DocsKeyed(s') && RefsUnique(s')
  {
  }

  lemma RegrantedEntriesKeyed(s: State, s': State, k0: string, g: UserId)
    requires EntriesKeyed(s) && Regranted(s, s', k0, g)
    ensures EntriesKeyed(s')
  {
  }

  /** Sharing a document keeps a consistent store consistent. */
  lemma SharePreservesConsistent(s: State, users: map<string, UserId>, caller: UserId,
                                 documentId: string, email: string, accessLevel: string)
    requires Consistent(s)
    ensures Consistent(Share(s, users, caller, documentId, email, accessLevel).state)
  {
    var o := Share(s, users, caller, documentId, email, accessLevel);
    if o.reply.Success? {
      var g, l := users[email], ParseLevel(accessLevel).value;
      var d, d' := s.docs[documentId], o.reply.value;
      assert GrantedExactlyAt(d', g, l) && OthersKept(d, d', g) && SameExceptAccess(d, d');
      assert o.state == State(s.docs[documentId := d'], AddShared(s.files, g, d.ref));
      RegrantedConsistent(s, o.state, documentId, g, l);
    }
  }

  lemma RegrantedConsistent(s: State, s': State, k0: string, g: UserId, l: Level)
    requires Consistent(s) && k0 in s.docs
    requires k0 in s'.docs && GrantedExactlyAt(s'.docs[k0], g, l)
    requires OthersKept(s.docs[k0], s'.docs[k0], g) && SameExceptAccess(s.docs[k0], s'.docs[k0])
    requires s' == State(s.docs[k0 := s'.docs[k0]], AddShared(s.files, g, s.docs[k0].ref))
    ensures Consistent(s')
  {
    var d, d' := s.docs[k0], s'.docs[k0];
    assert g in AccessList(d', l);
    assert Regranted(s, s', k0, g);
    ShareKeepsAccessConsistent(d, d', g, l);
    RegrantedDocsKeyed(s, s', k0, g);
    RegrantedCreatedIndexed(s, s', k0, g);
    RegrantedSharedComplete(s, s', k0, g);
    RegrantedSharedSound(s, s', k0, g);
    RegrantedEntriesKeyed(s, s', k0, g);
  }
}
