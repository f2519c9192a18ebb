/**
 * SuggestedEmailsRepo: the suggested_emails table, the addresses a user has
 * shared plans with or from, offered back for autocompletion. A (user_id,
 * email) pair appears at most once: Create inserts with ON CONFLICT (user_id,
 * email) DO NOTHING.
 */
module SuggestedEmailsRepo {
  import opened Errors
  import opened Rows
  import opened Schema

  /** Whether the table already holds the pair. */
  function HasPair(emails: seq<SuggestedEmail>, userId: Id, email: string): (r: bool)
    ensures r <==> exists i :: 0 <= i < |emails| && emails[i].userId == userId && emails[i].email == email
  {
    First(emails, EmailPairIs(userId, email), EmailMatches).Some?
  }

  /** The table after the INSERT ... ON CONFLICT DO NOTHING of Create. */
  function Inserted(emails: seq<SuggestedEmail>, id: Id, userId: Id, email: string, at: nat): seq<SuggestedEmail>
  {
    if HasPair(emails, userId, email) then emails else emails + [SuggestedEmail(id, userId, email, at)]
  }

  // ---------------------------------------------------------------- reads

  /** GetOne: the row with that id, or null. */
  function GetOne(emails: seq<SuggestedEmail>, id: Id): (r: Option<SuggestedEmail>)
    ensures r.Some? ==> r.value in emails && r.value.id == id
    ensures r.None? <==> forall i :: 0 <= i < |emails| ==> emails[i].id != id
  {
    First(emails, EmailIdIs(id), EmailMatches)
  }

  /** GetMany: exactly the user's rows, ORDER BY created_at DESC. */
  function GetMany(emails: seq<SuggestedEmail>, userId: Id): (r: seq<SuggestedEmail>)
    ensures SortedDesc(r, EmailCreated)
    ensures multiset(r) == multiset(Filter(emails, EmailOwnerIs(userId), EmailMatches, true))
    ensures forall e :: e in r <==> e in emails && e.userId == userId
  {
    var part := Filter(emails, EmailOwnerIs(userId), EmailMatches, true);
    var r := SortDesc(part, EmailCreated);
    assert forall e :: e in r <==> e in multiset(part);
    r
  }

  // ---------------------------------------------------------------- statements

  /** Create: inserts the pair unless present; returns the new id, or the empty Guid when nothing was inserted. */
  method Create(db: Db, userId: Id, email: string) returns (id: Id)
    requires db.Valid()
    modifies db`emails, db`nextId, db`clock
    ensures db.Valid()
    ensures db.emails == Inserted(old(db.emails), old(db.nextId), userId, email, old(db.clock))
    ensures id == if HasPair(old(db.emails), userId, email) then EmptyId else old(db.nextId)
    ensures db.Snapshot() == old(db.Snapshot()).(emails := db.emails)
    ensures db.nextId == old(db.nextId) + 1 && db.clock == old(db.clock) + 1
  {
    var newId, now := db.NewRow();
    if HasPair(db.emails, userId, email) {
      id := EmptyId;
    } else {
      KeyedAppend(db.emails, EmailKey, newId, SuggestedEmail(newId, userId, email, now));
      PairsUniqueAppend(db.emails, SuggestedEmail(newId, userId, email, now));
      db.SetEmails(db.emails + [SuggestedEmail(newId, userId, email, now)]);
      id := newId;
    }
  }

  /** DELETE FROM suggested_emails WHERE id = @id; returns the row count. */
  method Delete(db: Db, id: Id) returns (removed: nat)
    requires db.Valid()
    modifies db`emails
    ensures db.Valid()
    ensures db.emails == Filter(old(db.emails), EmailIdIs(id), EmailMatches, false)
    ensures removed == if GetOne(old(db.emails), id).Some? then 1 else 0
  {
    var rows;
    rows, removed := DeleteWhere(db.emails, EmailIdIs(id), EmailMatches);
    KeyedFilter(db.emails, EmailKey, db.nextId, EmailIdIs(id), EmailMatches, false);
    KeyedAtMostOne(db.emails, EmailKey, db.nextId, EmailIdIs(id), EmailMatches, id);
    CountZero(db.emails, EmailIdIs(id), EmailMatches);
    PairsUniqueFilter(db.emails, EmailIdIs(id));
    db.SetEmails(rows);
  }

  /** DELETE FROM suggested_emails WHERE email = @email, whoever's row it is; returns the row count. */
  method DeleteManyByEmail(db: Db, email: string) returns (removed: nat)
    requires db.Valid()
    modifies db`emails
    ensures db.Valid()
    ensures db.emails == Filter(old(db.emails), EmailTextIs(email), EmailMatches, false)
    ensures removed == Count(old(db.emails), EmailTextIs(email), EmailMatches)
    ensures forall i :: 0 <= i < |db.emails| ==> db.emails[i].email != email
    ensures db.Snapshot() == old(db.Snapshot()).(emails := db.emails)
  {
    var rows;
    rows, removed := DeleteWhere(db.emails, EmailTextIs(email), EmailMatches);
    KeyedFilter(db.emails, EmailKey, db.nextId, EmailTextIs(email), EmailMatches, false);
    PairsUniqueFilter(db.emails, EmailTextIs(email));
    db.SetEmails(rows);
  }

  // ---------------------------------------------------------------- properties

  /** A row whose pair the table does not hold may be appended. */
  lemma PairsUniqueAppend(emails: seq<SuggestedEmail>, e: SuggestedEmail)
    requires EmailPairsUnique(emails) && !HasPair(emails, e.userId, e.email)
    ensures EmailPairsUnique(emails + [e])
  {
    var r := emails + [e];
    forall i | 0 <= i < |emails| ensures r[i] == emails[i] { }
  }

  /** Deleting rows keeps the pairs unique. */
  lemma {:induction false} PairsUniqueFilter(emails: seq<SuggestedEmail>, w: EmailWhere)
    requires EmailPairsUnique(emails)
    ensures EmailPairsUnique(Filter(emails, w, EmailMatches, false))
    decreases |emails|
  {
    if emails != [] {
      var n := |emails| - 1;
      var init, last := emails[..n], emails[n];
      assert EmailPairsUnique(init) by {
        forall i | 0 <= i < n ensures init[i] == emails[i] { }
      }
      PairsUniqueFilter(init, w);
      var r0 := Filter(init, w, EmailMatches, false);
      assert emails == init + [last];
      if !EmailMatches(last, w) {
        assert Filter(emails, w, EmailMatches, false) == r0 + [last];
        forall i | 0 <= i < |r0|
          ensures r0[i].userId != last.userId || r0[i].email != last.email
        {
          var k :| 0 <= k < |init| && init[k] == r0[i];
          assert emails[k] == init[k];
        }
        PairsUniqueAppend(r0, last);
      } else {
        assert Filter(emails, w, EmailMatches, false) == r0;
      }
    }
  }

  /**
   * After Create the table holds the pair exactly once, the pairs stay
   * unique, and no row was removed or changed.
   */
  lemma CreateHoldsPairOnce(emails: seq<SuggestedEmail>, id: Id, userId: Id, email: string, at: nat)
    requires EmailPairsUnique(emails)
    ensures var r := Inserted(emails, id, userId, email, at);
      && EmailPairsUnique(r)
      && Count(r, EmailPairIs(userId, email), EmailMatches) == 1
      && r[..|emails|] == emails
  {
    var r := Inserted(emails, id, userId, email, at);
    var k :| 0 <= k < |r| && r[k].userId == userId && r[k].email == email;
    forall i | 0 <= i < |r| && i != k
      ensures !EmailMatches(r[i], EmailPairIs(userId, email))
    {
      if i < k {
        assert r[i].userId != r[k].userId || r[i].email != r[k].email;
      } else {
        assert r[k].userId != r[i].userId || r[k].email != r[i].email;
      }
    }
    CountOne(r, EmailPairIs(userId, email), EmailMatches, k);
  }

  /** After Create a pair is present exactly when it was present before or is the created one. */
  lemma InsertedPairs(emails: seq<SuggestedEmail>, id: Id, userId: Id, email: string, at: nat, u: Id, e: string)
    ensures HasPair(Inserted(emails, id, userId, email, at), u, e) <==> HasPair(emails, u, e) || (u == userId && e == email)
  {
    var r := Inserted(emails, id, userId, email, at);
    if !HasPair(emails, userId, email) {
      assert r[|emails|] == SuggestedEmail(id, userId, email, at);
      if HasPair(emails, u, e) {
        var i :| 0 <= i < |emails| && emails[i].userId == u && emails[i].email == e;
        assert r[i] == emails[i];
      }
      if HasPair(r, u, e) && !(u == userId && e == email) {
        var i :| 0 <= i < |r| && r[i].userId == u && r[i].email == e;
        assert i < |emails| && r[i] == emails[i];
      }
    }
  }

  /** Create is idempotent: a second Create of the same pair changes nothing. */
  lemma CreateIdempotent(emails: seq<SuggestedEmail>, id: Id, id': Id, userId: Id, email: string, at: nat, at': nat)
    ensures var once := Inserted(emails, id, userId, email, at);
      Inserted(once, id', userId, email, at') == once
  {
    var once := Inserted(emails, id, userId, email, at);
    assert once[|once| - 1].userId == userId || HasPair(emails, userId, email);
  }
}
