/**
 * The registry as it starts up, and the request sequences of the route
 * handlers' test suite, replayed on the model.
 */
module Scenarios {
  import opened Wrappers
  import opened Text
  import opened Users
  import opened Registry

  /** Six records with ids 1 to 6, all distinct, and id 1 is John Doe. */
  lemma SeedFacts()
    ensures |Seed()| == 6
    ensures forall i :: 0 <= i < 6 ==> Seed()[i].id == i + 1
    ensures UniqueIds(Seed()) && PositiveIds(Seed())
    ensures Lookup(Seed(), Some(1)) == Ok(User(1, Some("John Doe"), Some("john@example.com")))
    ensures Lookup(Seed(), Some(999)) == Err(NotFound) && Lookup(Seed(), None) == Err(NotFound)
  {
  }

  /** A field holding a block `t` that equals the query up to case matches the query. */
  lemma BlockMatches(u: User, f: Field, q: string, t: string, k: nat)
    requires FieldOf(u, f).Some? && k + |t| <= |FieldOf(u, f).value|
    requires FieldOf(u, f).value[k..k + |t|] == t && Lower(t) == Lower(q)
    ensures Matches(u, f, q)
  {
    IncludesIgnoringCaseOfBlock(FieldOf(u, f).value, k, |t|);
  }

  /** A field that, lower-cased, lacks `c`, a letter of the lower-cased query, does not match it. */
  lemma LacksLetter(u: User, f: Field, q: string, c: char)
    requires FieldOf(u, f).Some? && c in Lower(q)
    requires c !in Lower(FieldOf(u, f).value)
    ensures !Matches(u, f, q)
  {
    MissingCharNotIncluded(Lower(FieldOf(u, f).value), Lower(q), c);
  }

  /** John Doe: the name contains "john" and the e-mail "example.com", in any mix of cases. */
  lemma JohnDoeMatches(n: string, e: string)
    ensures Lower(n) == "john" ==> Matches(Seed()[0], Name, n)
    ensures Lower(e) == "example.com" ==> Matches(Seed()[0], Email, e)
  {
    if Lower(n) == "john" {
      assert Lower("John") == Lower(n);
      BlockMatches(Seed()[0], Name, n, "John", 0);
    }
    if Lower(e) == "example.com" {
      assert Lower("example.com") == Lower(e);
      assert "john@example.com"[5..16] == "example.com";
      BlockMatches(Seed()[0], Email, e, "example.com", 5);
    }
  }

  /** Jane Smith: the name lacks the letter 'o' of "john"; the e-mail contains "example.com". */
  lemma JaneSmithMatches(n: string, e: string)
    ensures Lower(n) == "john" ==> !Matches(Seed()[1], Name, n)
    ensures Lower(e) == "example.com" ==> Matches(Seed()[1], Email, e)
  {
    if Lower(n) == "john" {
      assert Lower("Jane Smith") == "jane smith";
      assert 'o' in Lower(n);
      LacksLetter(Seed()[1], Name, n, 'o');
    }
    if Lower(e) == "example.com" {
      assert Lower("example.com") == Lower(e);
      assert "jane@example.com"[5..16] == "example.com";
      BlockMatches(Seed()[1], Email, e, "example.com", 5);
    }
  }

  /** Alice Johnson: the name contains "john" and the e-mail "example.com", in any mix of cases. */
  lemma AliceJohnsonMatches(n: string, e: string)
    ensures Lower(n) == "john" ==> Matches(Seed()[2], Name, n)
    ensures Lower(e) == "example.com" ==> Matches(Seed()[2], Email, e)
  {
    if Lower(n) == "john" {
      assert Lower("John") == Lower(n);
      BlockMatches(Seed()[2], Name, n, "John", 6);
    }
    if Lower(e) == "example.com" {
      assert Lower("example.com") == Lower(e);
      assert "alice@example.com"[6..17] == "example.com";
      BlockMatches(Seed()[2], Email, e, "example.com", 6);
    }
  }

  /** Bob Brown: the name lacks the letter 'j' of "john"; the e-mail contains "example.com". */
  lemma BobBrownMatches(n: string, e: string)
    ensures Lower(n) == "john" ==> !Matches(Seed()[3], Name, n)
    ensures Lower(e) == "example.com" ==> Matches(Seed()[3], Email, e)
  {
    if Lower(n) == "john" {
      assert Lower("Bob Brown") == "bob brown";
      assert 'j' in Lower(n);
      LacksLetter(Seed()[3], Name, n, 'j');
    }
    if Lower(e) == "example.com" {
      assert Lower("example.com") == Lower(e);
      assert "bob@example.com"[4..15] == "example.com";
      BlockMatches(Seed()[3], Email, e, "example.com", 4);
    }
  }

  /** Charlie White: the name lacks the letter 'j' of "john"; the e-mail contains "example.com". */
  lemma CharlieWhiteMatches(n: string, e: string)
    ensures Lower(n) == "john" ==> !Matches(Seed()[4], Name, n)
    ensures Lower(e) == "example.com" ==> Matches(Seed()[4], Email, e)
  {
    if Lower(n) == "john" {
      assert Lower("Charlie White") == "charlie white";
      assert 'j' in Lower(n);
      LacksLetter(Seed()[4], Name, n, 'j');
    }
    if Lower(e) == "example.com" {
      assert Lower("example.com") == Lower(e);
      assert "charlie@example.com"[8..19] == "example.com";
      BlockMatches(Seed()[4], Email, e, "example.com", 8);
    }
  }

  /** David Black: the name lacks the letter 'j' of "john"; the e-mail contains "example.com". */
  lemma DavidBlackMatches(n: string, e: string)
    ensures Lower(n) == "john" ==> !Matches(Seed()[5], Name, n)
    ensures Lower(e) == "example.com" ==> Matches(Seed()[5], Email, e)
  {
    if Lower(n) == "john" {
      assert Lower("David Black") == "david black";
      assert 'j' in Lower(n);
      LacksLetter(Seed()[5], Name, n, 'j');
    }
    if Lower(e) == "example.com" {
      assert Lower("example.com") == Lower(e);
      assert "david@example.com"[6..17] == "example.com";
      BlockMatches(Seed()[5], Email, e, "example.com", 6);
    }
  }
  /**
   * Which seed names contain a query spelt "john" in any mix of cases: the
   * first (John Doe) and the third (Alice Johnson).
   */
  lemma SeedNamesMatchingJohn(q: string)
    requires Lower(q) == "john"
    ensures forall i :: 0 <= i < 6 ==> (Matches(Seed()[i], Name, q) <==> i == 0 || i == 2)
  {
    JohnDoeMatches(q, q);
    JaneSmithMatches(q, q);
    AliceJohnsonMatches(q, q);
    BobBrownMatches(q, q);
    CharlieWhiteMatches(q, q);
    DavidBlackMatches(q, q);
  }

  /** A six-record filter that keeps the first and the third record. */
  lemma KeepFirstAndThird(us: seq<User>, f: Field, q: string)
    requires |us| == 6 && forall i :: 0 <= i < 6 ==> FieldOf(us[i], f).Some?
    requires forall i :: 0 <= i < 6 ==> (Matches(us[i], f, q) <==> i == 0 || i == 2)
    ensures FilterByField(us, f, q) == Ok([us[0], us[2]])
  {
    assert FilterByField(us[5..], f, q) == Ok([]) by {
      assert us[5..] == [us[5]] + [];
      FilterByFieldCons(us[5], [], f, q);
    }
    assert FilterByField(us[4..], f, q) == Ok([]) by {
      assert us[4..] == [us[4]] + us[5..];
      FilterByFieldCons(us[4], us[5..], f, q);
    }
    assert FilterByField(us[3..], f, q) == Ok([]) by {
      assert us[3..] == [us[3]] + us[4..];
      FilterByFieldCons(us[3], us[4..], f, q);
    }
    assert FilterByField(us[2..], f, q) == Ok([us[2]]) by {
      assert us[2..] == [us[2]] + us[3..];
      FilterByFieldCons(us[2], us[3..], f, q);
      assert [us[2]] + [] == [us[2]];
    }
    assert FilterByField(us[1..], f, q) == Ok([us[2]]) by {
      assert us[1..] == [us[1]] + us[2..];
      FilterByFieldCons(us[1], us[2..], f, q);
    }
    assert us == [us[0]] + us[1..];
    FilterByFieldCons(us[0], us[1..], f, q);
    assert [us[0]] + [us[2]] == [us[0], us[2]];
  }

  /**
   * GET /users/filter?name=John (or JOHN, john, ...) on the seed list:
   * John Doe and Alice Johnson, in that order.
   */
  lemma SeedFilterByName(q: string)
    requires Lower(q) == "john"
    ensures Filter(Seed(), Some(q), None) == Ok([Seed()[0], Seed()[2]])
  {
    SeedNamesMatchingJohn(q);
    KeepFirstAndThird(Seed(), Name, q);
  }

  /** Each seed e-mail address contains a query spelt "example.com" in any mix of cases. */
  lemma SeedEmailsMatchingExample(q: string)
    requires Lower(q) == "example.com"
    ensures forall i :: 0 <= i < 6 ==> Matches(Seed()[i], Email, q)
  {
    JohnDoeMatches(q, q);
    JaneSmithMatches(q, q);
    AliceJohnsonMatches(q, q);
    BobBrownMatches(q, q);
    CharlieWhiteMatches(q, q);
    DavidBlackMatches(q, q);
  }

  /** GET /users/filter?email=example.com on the seed list: every record, in order. */
  lemma SeedFilterByEmail(q: string)
    requires Lower(q) == "example.com"
    ensures Filter(Seed(), None, Some(q)) == Ok(Seed())
  {
    SeedEmailsMatchingExample(q);
    FilterByFieldAllMatching(Seed(), Email, q);
  }

  /**
   * The route test suite's requests, in its order, on a freshly started
   * registry: list, get 1, get 999, create, update 1, update 999, delete 1,
   * delete 999.
   */
  method ReplayTestSuite() returns (listed: seq<User>, found: Result<User, Error>, missing: Result<User, Error>,
                                    created: User, updated: Result<User, Error>, updateMissing: Result<User, Error>,
                                    deleted: Result<(), Error>, deleteMissing: Result<(), Error>)
    ensures |listed| > 0 && listed[0].id == 1
    ensures found == Ok(User(1, Some("John Doe"), Some("john@example.com")))
    ensures missing == Err(NotFound)
    ensures created == User(7, Some("Test User"), Some("testuser@example.com"))
    ensures updated == Ok(User(1, Some("Updated Name"), Some("updated@example.com")))
    ensures updateMissing == Err(NotFound)
    ensures deleted == Ok(()) && deleteMissing == Err(NotFound)
  {
    var registry := new UserRegistry();
    SeedShape();
    listed, found, missing, created, updated, updateMissing, deleted, deleteMissing := RunTestSuite(registry);
  }

  /**
   * The same requests on any registry that, like the seed list, holds six
   * records with John Doe first and no id as large as 999.
   */
  method RunTestSuite(registry: UserRegistry)
    returns (listed: seq<User>, found: Result<User, Error>, missing: Result<User, Error>,
             created: User, updated: Result<User, Error>, updateMissing: Result<User, Error>,
             deleted: Result<(), Error>, deleteMissing: Result<(), Error>)
    requires registry.Valid() && |registry.users| == 6
    requires registry.users[0] == User(1, Some("John Doe"), Some("john@example.com"))
    requires forall u :: u in registry.users ==> u.id < 999
    modifies registry
    ensures |listed| > 0 && listed[0].id == 1
    ensures found == Ok(User(1, Some("John Doe"), Some("john@example.com")))
    ensures missing == Err(NotFound)
    ensures created == User(7, Some("Test User"), Some("testuser@example.com"))
    ensures updated == Ok(User(1, Some("Updated Name"), Some("updated@example.com")))
    ensures updateMissing == Err(NotFound)
    ensures deleted == Ok(()) && deleteMissing == Err(NotFound)
  {
    var patched := User(1, Some("Updated Name"), Some("updated@example.com"));
    ReplayIndexFacts(registry.users, NewUser(registry.users, Some("Test User"), Some("testuser@example.com")), patched);
    listed := registry.ListAll();
    found := registry.GetById(Some(1));
    missing := registry.GetById(Some(999));
    created := registry.Create(Some("Test User"), Some("testuser@example.com"));
    updated := registry.Update(Some(1), Some("Updated Name"), Some("updated@example.com"));
    updateMissing := registry.Update(Some(999), Some("Non-existent User"), Some("nonexistent@example.com"));
    deleted := registry.Delete(Some(1));
    deleteMissing := registry.Delete(Some(999));
  }

  /** The seed list has six records, John Doe first, and every id is below 999. */
  lemma SeedShape()
    ensures |Seed()| == 6 && Seed()[0] == User(1, Some("John Doe"), Some("john@example.com"))
    ensures forall u :: u in Seed() ==> u.id < 999
  {
  }

  /**
   * The lists the route tests pass through, for any start list whose first
   * record has id 1 and whose ids stay below 999: the list with a record
   * appended, with its first record then replaced by one of id 1, and with
   * that first record then removed. Id 1 is first until the removal, and id
   * 999 is never present.
   */
  lemma ReplayIndexFacts(us: seq<User>, c: User, p: User)
    requires |us| > 0 && us[0].id == 1 && p.id == 1
    requires (forall u :: u in us ==> u.id < 999) && c.id < 999
    ensures Lookup(us, Some(1)) == Ok(us[0]) && Lookup(us, Some(999)) == Err(NotFound)
    ensures FindIndex(us + [c], Some(1)) == Some(0)
    ensures FindIndex((us + [c])[0 := p], Some(999)).None?
    ensures FindIndex((us + [c])[0 := p], Some(1)) == Some(0)
    ensures FindIndex(RemoveAt((us + [c])[0 := p], 0), Some(999)).None?
  {
    var s1 := us + [c];
    var s2 := s1[0 := p];
    var s3 := RemoveAt(s2, 0);
    FirstHasId(us, 1);
    FirstHasId(s1, 1);
    FirstHasId(s2, 1);
    assert forall u :: u in s1 ==> u.id < 999 by {
      assert forall j :: 0 <= j < |s1| ==> s1[j] == c || s1[j] in us;
    }
    assert forall u :: u in s2 ==> u.id < 999 by {
      assert forall j :: 0 <= j < |s2| ==> s2[j] == p || s2[j] == s1[j];
    }
    assert forall u :: u in s3 ==> u.id < 999 by {
      assert forall j :: 0 <= j < |s3| ==> s3[j] == s2[j + 1];
    }
    IdsBelow(us, 999);
    IdsBelow(s2, 999);
    IdsBelow(s3, 999);
  }

  /** A list whose first record has the id finds it at position 0. */
  lemma FirstHasId(us: seq<User>, id: int)
    requires |us| > 0 && us[0].id == id
    ensures FindIndex(us, Some(id)) == Some(0) && Lookup(us, Some(id)) == Ok(us[0])
  {
  }

  /** A list whose ids are all below `n` does not hold `n`. */
  lemma IdsBelow(us: seq<User>, n: int)
    requires forall u :: u in us ==> u.id < n
    ensures FindIndex(us, Some(n)).None? && Lookup(us, Some(n)) == Err(NotFound)
  {
  }

  /**
   * The seed list without its first record: five records, none with id 1,
   * and after appending any record, id 6 still leads to David Black.
   */
  lemma SeedWithoutFirst(v: User)
    ensures FindIndex(Seed(), Some(1)) == Some(0)
    ensures |RemoveAt(Seed(), 0)| == 5
    ensures Lookup(RemoveAt(Seed(), 0), Some(1)) == Err(NotFound)
    ensures Lookup(RemoveAt(Seed(), 0) + [v], Some(6)) == Ok(User(6, Some("David Black"), Some("david@example.com")))
  {
    var rest := RemoveAt(Seed(), 0);
    assert forall j :: 0 <= j < 5 ==> rest[j] == Seed()[j + 1];
    assert FindIndex(rest, Some(6)) == Some(4) by {
      assert forall j :: 0 <= j < 4 ==> rest[j].id == j + 2;
      assert rest[4].id == 6;
    }
    LookupAfterAppend(rest, v, Some(6));
  }

  /**
   * Delete user 1 from a fresh registry, then create a user: the delete
   * succeeds, user 1 is gone, five records remain, and the new record gets
   * id 6, which David Black still carries, so GET /users/6 keeps returning
   * David Black.
   */
  method DeleteThenCreate() returns (deleted: Result<(), Error>, gone: Result<User, Error>, remaining: nat,
                                     created: User, byNewId: Result<User, Error>)
    ensures deleted == Ok(()) && gone == Err(NotFound) && remaining == 5
    ensures created == User(6, Some("Z"), Some("z@x.com"))
    ensures byNewId == Ok(User(6, Some("David Black"), Some("david@example.com")))
  {
    var registry := new UserRegistry();
    SeedWithoutFirst(NewUser(RemoveAt(Seed(), 0), Some("Z"), Some("z@x.com")));
    deleted := registry.Delete(Some(1));
    gone := registry.GetById(Some(1));
    remaining := |registry.ListAll()|;
    created := registry.Create(Some("Z"), Some("z@x.com"));
    byNewId := registry.GetById(Some(created.id));
  }
}
