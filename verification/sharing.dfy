/** Laws relating successive requests to the document routes: a later share
    of the same document with the same user overrides an earlier one, a
    repeated share at the same level only moves the grantee to the end of
    its list, and a freshly created document reads back with its defaults. */
module SharingLaws {
  import opened Wrappers
  import opened Seqs
  import opened DocumentSchema
  import opened UserFilesIndex
  import opened DocumentRoutes

  /** Stripping a user a second time, after it was granted some level, gives
      what the first strip gave. */
  lemma StripAfterPush(d: Document, l: Level, g: UserId)
    ensures Strip(Push(Strip(d, g), l, g), g) == Strip(d, g)
  {
    var d1 := Push(Strip(d, g), l, g);
    forall m: Level
      ensures AccessList(Strip(d1, g), m) == AccessList(Strip(d, g), m)
    {
      if m == l {
        WithoutPushed(AccessList(d, m), g);
      }
    }
    assert AccessList(Strip(d1, g), Editor) == AccessList(Strip(d, g), Editor);
    assert AccessList(Strip(d1, g), Reviewer) == AccessList(Strip(d, g), Reviewer);
    assert AccessList(Strip(d1, g), Reader) == AccessList(Strip(d, g), Reader);
  }

  /** Once a ref is on a user's shared list, recording it again changes nothing. */
  lemma AddSharedTwice(files: Index, u: UserId, ref: DocRef)
    ensures AddShared(AddShared(files, u, ref), u, ref) == AddShared(files, u, ref)
  {
    var f1 := AddShared(files, u, ref);
    assert EntryOf(f1, u) == f1[u];
  }

  /** The shape of a successful share: the document's lists regranted, and
      the grantee's index entry updated. */
  lemma ShareShape(s: State, users: map<string, UserId>, caller: UserId,
                   documentId: string, email: string, accessLevel: string)
    requires documentId in s.docs && s.docs[documentId].author == caller
    requires email in users && ParseLevel(accessLevel).Some?
    ensures
      var d, g, l := s.docs[documentId], users[email], ParseLevel(accessLevel).value;
      Share(s, users, caller, documentId, email, accessLevel)
        == Outcome(State(s.docs[documentId := Push(Strip(d, g), l, g)], AddShared(s.files, g, d.ref)),
                   Success(Push(Strip(d, g), l, g)))
  {
  }

  /** Sharing a document with a user and then sharing it with the same user
      again (same document, caller and email) leaves the store and the reply
      exactly as if only the second share had been made: a re-share moves the
      grantee to the new level and never duplicates it. With equal levels this
      says sharing is idempotent. */
  lemma {:induction false} ShareLastGrantWins(s: State, users: map<string, UserId>, caller: UserId,
                                              documentId: string, email: string, first: string, second: string)
    requires documentId in s.docs && s.docs[documentId].author == caller
    requires email in users && ParseLevel(first).Some?
    ensures
      var s1 := Share(s, users, caller, documentId, email, first).state;
      && Share(s1, users, caller, documentId, email, second).reply
           == Share(s, users, caller, documentId, email, second).reply
      && (ParseLevel(second).Some? ==>
            Share(s1, users, caller, documentId, email, second).state
              == Share(s, users, caller, documentId, email, second).state)
  {
    ShareShape(s, users, caller, documentId, email, first);
    var s1 := Share(s, users, caller, documentId, email, first).state;
    var d, g, l1 := s.docs[documentId], users[email], ParseLevel(first).value;
    var d1 := Push(Strip(d, g), l1, g);
    assert s1.docs[documentId] == d1;
    if ParseLevel(second).None? {
      assert documentId in s1.docs && s1.docs[documentId].author == caller;
    } else {
      SecondShare(s, s1, users, caller, documentId, email, l1, second);
    }
  }

  lemma SecondShare(s: State, s1: State, users: map<string, UserId>, caller: UserId,
                    documentId: string, email: string, l1: Level, second: string)
    requires documentId in s.docs && email in users && s.docs[documentId].author == caller
    requires ParseLevel(second).Some?
    requires
      var d, g := s.docs[documentId], users[email];
      s1 == State(s.docs[documentId := Push(Strip(d, g), l1, g)], AddShared(s.files, g, d.ref))
    ensures Share(s1, users, caller, documentId, email, second) == Share(s, users, caller, documentId, email, second)
  {
    var d, g, l2 := s.docs[documentId], users[email], ParseLevel(second).value;
    var d1 := Push(Strip(d, g), l1, g);
    StripAfterPush(d, l1, g);
    AddSharedTwice(s.files, g, d.ref);
    var d2 := Push(Strip(d, g), l2, g);
    assert Push(Strip(d1, g), l2, g) == d2;
    UpdateTwice(s.docs, documentId, d1, d2);
    ShareShape(s, users, caller, documentId, email, second);
    assert s1.docs[documentId].author == caller && s1.docs[documentId].ref == d.ref;
    ShareShape(s1, users, caller, documentId, email, second);
  }

  /** Storing a record twice under one key keeps only the second. */
  lemma UpdateTwice<K, V>(m: map<K, V>, k: K, a: V, b: V)
    ensures m[k := a][k := b] == m[k := b]
  {
  }

  /** Regranting a user the level it already holds in consistent lists
      changes no list's contents; it only moves that user to the end. */
  lemma RegrantSameLevel(d: Document, l: Level, g: UserId, m: Level)
    requires AccessConsistent(d) && g in AccessList(d, l)
    ensures multiset(AccessList(Push(Strip(d, g), l, g), m)) == multiset(AccessList(d, m))
  {
    var d' := Push(Strip(d, g), l, g);
    assert NoDup(AccessList(d, m)) && NoDup(AccessList(d, l));
    if m == l {
      assert multiset(AccessList(d, m))[g] == 1;
      assert multiset(AccessList(d', m)) == multiset(AccessList(d, m))[g := 0] + multiset{g};
    } else {
      assert g !in AccessList(d, m) by {
        assert Disjoint(AccessList(d, l), AccessList(d, m)) || Disjoint(AccessList(d, m), AccessList(d, l));
      }
    }
  }

  /** Re-sharing at the level a user already holds, in a document whose lists
      are consistent, changes no list's contents: only the grantee's position
      moves, to the end of its list. */
  lemma ReshareSameLevel(s: State, users: map<string, UserId>, caller: UserId,
                         documentId: string, email: string, accessLevel: string)
    requires documentId in s.docs && s.docs[documentId].author == caller
    requires email in users && ParseLevel(accessLevel).Some?
    requires AccessConsistent(s.docs[documentId])
    requires users[email] in AccessList(s.docs[documentId], ParseLevel(accessLevel).value)
    ensures
      var d, d' := s.docs[documentId], Share(s, users, caller, documentId, email, accessLevel).reply.value;
      var l, g := ParseLevel(accessLevel).value, users[email];
      && (forall m: Level :: multiset(AccessList(d', m)) == multiset(AccessList(d, m)))
      && AccessList(d', l) == Without(AccessList(d, l), g) + [g]
  {
    ShareShape(s, users, caller, documentId, email, accessLevel);
    var d, g, l := s.docs[documentId], users[email], ParseLevel(accessLevel).value;
    forall m: Level
      ensures multiset(AccessList(Push(Strip(d, g), l, g), m)) == multiset(AccessList(d, m))
    {
      RegrantSameLevel(d, l, g, m);
    }
  }

  /** A document just created reads back under its id with the creation
      defaults, authored by its creator, and is listed among the creator's
      recent documents. */
  lemma CreateThenGet(s: State, caller: UserId, documentId: string, ref: DocRef, now: Time)
    requires Create(s, Some(caller), documentId, ref, now).reply.Success?
    ensures
      var s' := Create(s, Some(caller), documentId, ref, now).state;
      && Get(s', documentId).Success?
      && Get(s', documentId).value.author == caller
      && Get(s', documentId).value.title == DefaultTitle
      && Get(s', documentId).value.content == DefaultContent
      && ref in RecentFiles(s', caller)
  {
  }

  /** Scenario: the owner sharing a document with a user at level "reader" puts the
      document on that user's shared list and the user on the reader list,
      without touching the document's text. */
  lemma ShareAsReader(s: State, users: map<string, UserId>, owner: UserId, documentId: string, email: string)
    requires documentId in s.docs && s.docs[documentId].author == owner && email in users
    ensures
      var o := Share(s, users, owner, documentId, email, "reader");
      && o.reply.Success?
      && users[email] in o.state.docs[documentId].readerAccess
      && users[email] !in o.state.docs[documentId].editorAccess
      && s.docs[documentId].ref in SharedFiles(o.state, users[email])
      && o.state.docs[documentId].content == s.docs[documentId].content
  {
    var o := Share(s, users, owner, documentId, email, "reader");
    assert ParseLevel("reader") == Some(Reader);
    assert AccessList(o.reply.value, Reader) == o.reply.value.readerAccess;
    assert AccessList(o.reply.value, Editor) == o.reply.value.editorAccess;
  }
}
