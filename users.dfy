/**
 * The user records of the registry and the pure operations on the ordered
 * list of records that the route handlers of app.js perform: the lookup by
 * id (`find` / `findIndex`), the substring filter (`filter`), and the three
 * list transitions that create, update and delete apply.
 */
module Users {
  import opened Wrappers
  import opened Text

  /**
   * One stored record. `name` and `email` are `None` when the creating
   * request left them out (JavaScript `undefined`).
   */
  datatype User = User(id: int, name: Option<string>, email: Option<string>)

  /** The two text fields the filter and the update address. */
  datatype Field = Name | Email

  /**
   * Why an operation fails: no record carries the requested id, or the
   * filter called `toLowerCase` on a field that is `undefined` (a TypeError).
   */
  datatype Error = NotFound | UndefinedField(field: Field)

  function FieldOf(u: User, f: Field): Option<string>
  {
    match f
    case Name => u.name
    case Email => u.email
  }

  /** JavaScript truthiness of a query or body value: present and not the empty string. */
  predicate Truthy(v: Option<string>)
  {
    v.Some? && v.value != ""
  }

  /** The JavaScript expression `v || fallback`. */
  function OrElse(v: Option<string>, fallback: Option<string>): (r: Option<string>)
    ensures !Truthy(v) ==> r == fallback
    ensures Truthy(r) <==> Truthy(v) || Truthy(fallback)
    ensures Truthy(v) ==> r == v
  {
    if Truthy(v) then v else fallback
  }

  /** The six records the registry holds at start-up. */
  function Seed(): seq<User>
  {
    [ User(1, Some("John Doe"), Some("john@example.com")),
      User(2, Some("Jane Smith"), Some("jane@example.com")),
      User(3, Some("Alice Johnson"), Some("alice@example.com")),
      User(4, Some("Bob Brown"), Some("bob@example.com")),
      User(5, Some("Charlie White"), Some("charlie@example.com")),
      User(6, Some("David Black"), Some("david@example.com")) ]
  }

  // ---------------------------------------------------------------------------
  // Lookup by id
  // ---------------------------------------------------------------------------

  /**
   * `u.id === parseInt(req.params.id)`. The route id arrives already parsed;
   * `None` stands for `NaN`, which is equal to nothing.
   */
  predicate HasId(u: User, id: Option<int>)
  {
    id == Some(u.id)
  }

  /** `users.findIndex(...)`: the position of the first record with the id, if any. */
  function FindIndex(us: seq<User>, id: Option<int>): (r: Option<nat>)
    ensures r.Some? ==> r.value < |us| && HasId(us[r.value], id)
    ensures r.Some? ==> forall j :: 0 <= j < r.value ==> !HasId(us[j], id)
    ensures r.None? ==> forall j :: 0 <= j < |us| ==> !HasId(us[j], id)
  {
    if us == [] then None
    else if HasId(us[0], id) then Some(0)
    else
      match FindIndex(us[1..], id)
      case None => None
      case Some(i) => Some(i + 1)
  }

  /**
   * `users.find(...)` followed by the not-found check of GET /users/:id:
   * the first record with the id, or `NotFound` when there is none.
   */
  function Lookup(us: seq<User>, id: Option<int>): (r: Result<User, Error>)
    ensures r.Ok? ==> exists i :: 0 <= i < |us| && us[i] == r.value && HasId(us[i], id) &&
                                  forall j :: 0 <= j < i ==> !HasId(us[j], id)
    ensures r.Err? <==> forall u :: u in us ==> !HasId(u, id)
    ensures r.Err? ==> r.error == NotFound
  {
    match FindIndex(us, id)
    case Some(i) => Ok(us[i])
    case None => Err(NotFound)
  }

  // ---------------------------------------------------------------------------
  // Filter
  // ---------------------------------------------------------------------------

  /** `a` is `b` with some elements left out, the rest in their original order. */
  ghost predicate IsSubsequence<T>(a: seq<T>, b: seq<T>)
    decreases |b|
  {
    a == [] ||
    (b != [] && ((a[0] == b[0] && IsSubsequence(a[1..], b[1..])) || IsSubsequence(a, b[1..])))
  }

  /** `u.<f>.toLowerCase().includes(q.toLowerCase())`, for a record whose field is defined. */
  predicate Matches(u: User, f: Field, q: string)
  {
    FieldOf(u, f).Some? && IncludesIgnoringCase(FieldOf(u, f).value, q)
  }

  /**
   * `us.filter(u => u.<f>.toLowerCase().includes(q.toLowerCase()))`, or the
   * TypeError that the first record whose field is undefined raises.
   */
  function FilterByField(us: seq<User>, f: Field, q: string): Result<seq<User>, Error>
  {
    if us == [] then Ok([])
    else if FieldOf(us[0], f).None? then Err(UndefinedField(f))
    else
      match FilterByField(us[1..], f, q)
      case Err(e) => Err(e)
      case Ok(rest) => Ok(if Matches(us[0], f, q) then [us[0]] + rest else rest)
  }

  /** One `filter` call raises a TypeError exactly when some record lacks the field. */
  lemma {:induction false} FilterByFieldFails(us: seq<User>, f: Field, q: string)
    ensures FilterByField(us, f, q).Err? <==> exists i :: 0 <= i < |us| && FieldOf(us[i], f).None?
    ensures FilterByField(us, f, q).Err? ==> FilterByField(us, f, q).error == UndefinedField(f)
    decreases |us|
  {
    if us != [] && FieldOf(us[0], f).Some? {
      FilterByFieldFails(us[1..], f, q);
      if FilterByField(us[1..], f, q).Err? {
        var i :| 0 <= i < |us[1..]| && FieldOf(us[1..][i], f).None?;
        assert FieldOf(us[i + 1], f).None?;
      } else {
        assert forall i :: 1 <= i < |us| ==> us[i] == us[1..][i - 1];
      }
    }
  }

  /**
   * When one `filter` call succeeds, it keeps exactly the matching records,
   * each as often as in the input, in their original order.
   */
  lemma {:induction false} FilterByFieldKeeps(us: seq<User>, f: Field, q: string)
    ensures FilterByField(us, f, q).Ok? ==> IsSubsequence(FilterByField(us, f, q).value, us)
    ensures FilterByField(us, f, q).Ok? ==> forall u ::
      multiset(FilterByField(us, f, q).value)[u] == if Matches(u, f, q) then multiset(us)[u] else 0
    decreases |us|
  {
    if us != [] && FieldOf(us[0], f).Some? {
      FilterByFieldKeeps(us[1..], f, q);
      assert us == [us[0]] + us[1..];
    }
  }

  /**
   * What one `filter` call yields: a TypeError exactly when some record
   * lacks the field; otherwise exactly the matching records, each as often
   * as in the input, in their original order.
   */
  lemma FilterByFieldSpec(us: seq<User>, f: Field, q: string)
    ensures FilterByField(us, f, q).Err? <==> exists i :: 0 <= i < |us| && FieldOf(us[i], f).None?
    ensures FilterByField(us, f, q).Err? ==> FilterByField(us, f, q).error == UndefinedField(f)
    ensures FilterByField(us, f, q).Ok? ==> IsSubsequence(FilterByField(us, f, q).value, us)
    ensures FilterByField(us, f, q).Ok? ==> forall u ::
      multiset(FilterByField(us, f, q).value)[u] == if Matches(u, f, q) then multiset(us)[u] else 0
  {
    FilterByFieldFails(us, f, q);
    FilterByFieldKeeps(us, f, q);
  }

  /** A record passes every test that a truthy query parameter switches on. */
  predicate Selected(u: User, name: Option<string>, email: Option<string>)
  {
    (Truthy(name) ==> Matches(u, Name, name.value)) &&
    (Truthy(email) ==> Matches(u, Email, email.value))
  }

  /**
   * GET /users/filter: the name test when `name` is truthy, then the email
   * test when `email` is truthy, on the current list.
   */
  function Filter(us: seq<User>, name: Option<string>, email: Option<string>): Result<seq<User>, Error>
  {
    var byName := if Truthy(name) then FilterByField(us, Name, name.value) else Ok(us);
    if byName.Err? || !Truthy(email) then byName
    else FilterByField(byName.value, Email, email.value)
  }

  /**
   * GET /users/filter fails exactly when a record that reaches a test lacks
   * the field that test reads.
   */
  lemma FilterFails(us: seq<User>, name: Option<string>, email: Option<string>)
    ensures Filter(us, name, email).Err? <==>
      (Truthy(name) && exists u :: u in us && u.name.None?) ||
      (Truthy(email) && exists u :: u in us && u.email.None? && Selected(u, name, None))
  {
    var byName := if Truthy(name) then FilterByField(us, Name, name.value) else Ok(us);
    if Truthy(name) {
      FilterByFieldFails(us, Name, name.value);
      FilterByFieldKeeps(us, Name, name.value);
      if byName.Err? {
        var i :| 0 <= i < |us| && us[i].name.None?;
      }
    }
    if byName.Ok? && Truthy(email) {
      FilterByFieldFails(byName.value, Email, email.value);
      if FilterByField(byName.value, Email, email.value).Err? {
        var i :| 0 <= i < |byName.value| && byName.value[i].email.None?;
        assert multiset(byName.value)[byName.value[i]] > 0;
      }
      if u :| u in us && u.email.None? && Selected(u, name, None) {
        assert multiset(byName.value)[u] > 0;
        assert u in byName.value;
      }
    }
  }

  /**
   * When GET /users/filter succeeds, it returns exactly the records that
   * pass every switched-on test, each as often as stored, in stored order.
   */
  lemma FilterKeeps(us: seq<User>, name: Option<string>, email: Option<string>)
    ensures Filter(us, name, email).Ok? ==> IsSubsequence(Filter(us, name, email).value, us)
    ensures Filter(us, name, email).Ok? ==> forall u ::
      multiset(Filter(us, name, email).value)[u] == if Selected(u, name, email) then multiset(us)[u] else 0
  {
    var byName := if Truthy(name) then FilterByField(us, Name, name.value) else Ok(us);
    SubsequenceReflexive(us);
    if Truthy(name) {
      FilterByFieldKeeps(us, Name, name.value);
    }
    if byName.Ok? && Truthy(email) {
      var r := FilterByField(byName.value, Email, email.value);
      FilterByFieldKeeps(byName.value, Email, email.value);
      if r.Ok? {
        SubsequenceTransitive(r.value, byName.value, us);
      }
    }
  }

  /**
   * What GET /users/filter answers: the whole list when neither parameter is
   * truthy; otherwise exactly the records that pass every switched-on test,
   * each as often as stored, in their stored order. It fails exactly when a
   * record that reaches a test lacks the field that test reads.
   */
  lemma FilterSpec(us: seq<User>, name: Option<string>, email: Option<string>)
    ensures !Truthy(name) && !Truthy(email) ==> Filter(us, name, email) == Ok(us)
    ensures Filter(us, name, email).Err? <==>
      (Truthy(name) && exists u :: u in us && u.name.None?) ||
      (Truthy(email) && exists u :: u in us && u.email.None? && Selected(u, name, None))
    ensures Filter(us, name, email).Ok? ==> IsSubsequence(Filter(us, name, email).value, us)
    ensures Filter(us, name, email).Ok? ==> forall u ::
      multiset(Filter(us, name, email).value)[u] == if Selected(u, name, email) then multiset(us)[u] else 0
  {
    FilterFails(us, name, email);
    FilterKeeps(us, name, email);
  }

  lemma {:induction false} SubsequenceReflexive<T>(a: seq<T>)
    ensures IsSubsequence(a, a)
    decreases |a|
  {
    if a != [] {
      SubsequenceReflexive(a[1..]);
    }
  }

  lemma {:induction false} SubsequenceTransitive<T>(a: seq<T>, b: seq<T>, c: seq<T>)
    requires IsSubsequence(a, b) && IsSubsequence(b, c)
    ensures IsSubsequence(a, c)
    decreases |c|
  {
    if a != [] {
      if b[0] == c[0] && IsSubsequence(b[1..], c[1..]) {
        if a[0] == b[0] && IsSubsequence(a[1..], b[1..]) {
          SubsequenceTransitive(a[1..], b[1..], c[1..]);
        } else {
          SubsequenceTransitive(a, b[1..], c[1..]);
        }
      } else {
        SubsequenceTransitive(a, b, c[1..]);
      }
    }
  }

  /** A filter that every record passes keeps the whole list. */
  lemma {:induction false} FilterByFieldAllMatching(us: seq<User>, f: Field, q: string)
    requires forall i :: 0 <= i < |us| ==> Matches(us[i], f, q)
    ensures FilterByField(us, f, q) == Ok(us)
    decreases |us|
  {
    if us != [] {
      assert us == [us[0]] + us[1..];
      FilterByFieldAllMatching(us[1..], f, q);
      assert Matches(us[0], f, q);
      FilterByFieldCons(us[0], us[1..], f, q);
    }
  }

  /** Filtering the result of a filter again with the same parameters changes nothing. */
  lemma FilterIdempotent(us: seq<User>, name: Option<string>, email: Option<string>)
    requires Filter(us, name, email).Ok?
    ensures Filter(Filter(us, name, email).value, name, email) == Filter(us, name, email)
  {
    FilterSpec(us, name, email);
    var r := Filter(us, name, email).value;
    forall i | 0 <= i < |r|
      ensures Selected(r[i], name, email)
    {
      assert multiset(r)[r[i]] > 0;
    }
    if Truthy(name) {
      FilterByFieldAllMatching(r, Name, name.value);
    }
    if Truthy(email) {
      FilterByFieldAllMatching(r, Email, email.value);
    }
  }

  /** One step of `filter`: the first record is kept exactly when it matches. */
  lemma FilterByFieldCons(x: User, rest: seq<User>, f: Field, q: string)
    requires FieldOf(x, f).Some?
    ensures FilterByField([x] + rest, f, q) ==
      match FilterByField(rest, f, q)
      case Err(e) => Err(e)
      case Ok(r) => Ok(if Matches(x, f, q) then [x] + r else r)
  {
    assert ([x] + rest)[0] == x && ([x] + rest)[1..] == rest;
  }

  /** Every record a successful filter returns comes from its input and matches. */
  lemma FilterByFieldMembers(us: seq<User>, f: Field, q: string)
    requires FilterByField(us, f, q).Ok?
    ensures forall u :: u in FilterByField(us, f, q).value ==> u in us && Matches(u, f, q)
  {
    FilterByFieldSpec(us, f, q);
    var r := FilterByField(us, f, q).value;
    forall u | u in r
      ensures u in us && Matches(u, f, q)
    {
      assert multiset(r)[u] > 0;
    }
  }

  /**
   * On records whose two fields are both defined, the name test and the
   * email test commute: the conjunction does not depend on their order.
   */
  lemma {:induction false} FilterByFieldsCommute(us: seq<User>, f: Field, p: string, g: Field, q: string)
    requires forall u :: u in us ==> FieldOf(u, f).Some? && FieldOf(u, g).Some?
    ensures FilterByField(us, f, p).Ok? && FilterByField(us, g, q).Ok?
    ensures FilterByField(FilterByField(us, f, p).value, g, q) ==
            FilterByField(FilterByField(us, g, q).value, f, p)
    decreases |us|
  {
    if us != [] {
      var x, rest := us[0], us[1..];
      assert us == [x] + rest;
      assert forall u :: u in rest ==> u in us;
      FilterByFieldsCommute(rest, f, p, g, q);
      FilterByFieldSpec(us, f, p);
      FilterByFieldSpec(us, g, q);
      var fr, gr := FilterByField(rest, f, p).value, FilterByField(rest, g, q).value;
      FilterByFieldMembers(rest, f, p);
      FilterByFieldMembers(rest, g, q);
      FilterByFieldCons(x, rest, f, p);
      FilterByFieldCons(x, rest, g, q);
      if Matches(x, f, p) {
        FilterByFieldCons(x, fr, g, q);
      }
      if Matches(x, g, q) {
        FilterByFieldCons(x, gr, f, p);
      }
    }
  }

  // ---------------------------------------------------------------------------
  // Create, update and delete as transitions of the list
  // ---------------------------------------------------------------------------

  /** The record POST /users builds: the id is the number of records plus one. */
  function NewUser(us: seq<User>, name: Option<string>, email: Option<string>): User
  {
    User(|us| + 1, name, email)
  }

  /** `user.name = name || user.name; user.email = email || user.email`. */
  function Patch(u: User, name: Option<string>, email: Option<string>): User
  {
    u.(name := OrElse(name, u.name), email := OrElse(email, u.email))
  }

  /** `users.splice(i, 1)`: the list without its record at position `i`. */
  function RemoveAt(us: seq<User>, i: nat): (r: seq<User>)
    requires i < |us|
    ensures |r| == |us| - 1
    ensures forall j :: 0 <= j < |r| ==> r[j] == if j < i then us[j] else us[j + 1]
  {
    us[..i] + us[i + 1..]
  }

  /**
   * Splicing out one record removes exactly that record, one occurrence of
   * it, and keeps the relative order of all the others.
   */
  lemma RemoveAtKeepsOthersInOrder(us: seq<User>, i: nat)
    requires i < |us|
    ensures multiset(RemoveAt(us, i)) + multiset{us[i]} == multiset(us)
    ensures IsSubsequence(RemoveAt(us, i), us)
  {
    assert RemoveAt(us, i) == us[..i] + us[i + 1..];
    SkipOneMultiset(us, i);
    SkipOneIsSubsequence(us, i);
  }

  lemma SkipOneMultiset<T>(s: seq<T>, i: nat)
    requires i < |s|
    ensures multiset(s[..i] + s[i + 1..]) + multiset{s[i]} == multiset(s)
  {
    assert s == s[..i] + [s[i]] + s[i + 1..];
  }

  lemma {:induction false} SkipOneIsSubsequence<T>(s: seq<T>, i: nat)
    requires i < |s|
    ensures IsSubsequence(s[..i] + s[i + 1..], s)
    decreases i
  {
    var a := s[..i] + s[i + 1..];
    if i == 0 {
      assert a == s[1..];
      SubsequenceReflexive(s[1..]);
    } else {
      SkipOneIsSubsequence(s[1..], i - 1);
      assert a[0] == s[0];
      assert a[1..] == s[1..][..i - 1] + s[1..][i..];
    }
  }

  /** No two records share an id. */
  predicate UniqueIds(us: seq<User>)
  {
    forall j, k :: 0 <= j < k < |us| ==> us[j].id != us[k].id
  }

  /** Every id is a positive integer. */
  predicate PositiveIds(us: seq<User>)
  {
    forall u :: u in us ==> u.id > 0
  }

  /**
   * Looking up an id after a record has been appended: an earlier record
   * with the id still wins; otherwise the appended record is found if it
   * carries the id, and nothing is found if it does not.
   */
  lemma {:induction false} LookupAfterAppend(us: seq<User>, v: User, id: Option<int>)
    ensures Lookup(us + [v], id) ==
      if Lookup(us, id).Ok? then Lookup(us, id)
      else if HasId(v, id) then Ok(v)
      else Err(NotFound)
    decreases |us|
  {
    if us != [] {
      LookupAfterAppend(us[1..], v, id);
      assert (us + [v])[1..] == us[1..] + [v];
    }
  }

  /**
   * The record POST /users appends is what GET /users/:id returns for its
   * id exactly when no older record already carries that id.
   */
  lemma CreatedIsFoundUnlessShadowed(us: seq<User>, name: Option<string>, email: Option<string>)
    ensures var n := NewUser(us, name, email);
      Lookup(us + [n], Some(n.id)) ==
        if forall u :: u in us ==> u.id != n.id then Ok(n) else Lookup(us, Some(n.id))
  {
    LookupAfterAppend(us, NewUser(us, name, email), Some(|us| + 1));
  }

  /**
   * Deleting a record whose id no other record carries makes that id
   * unknown: a second DELETE or GET of it finds nothing.
   */
  lemma DeleteOfUniqueIdIsFinal(us: seq<User>, id: Option<int>)
    requires FindIndex(us, id).Some?
    requires UniqueIds(us)
    ensures Lookup(RemoveAt(us, FindIndex(us, id).value), id) == Err(NotFound)
  {
    var i := FindIndex(us, id).value;
    var r := RemoveAt(us, i);
    forall u | u in r
      ensures !HasId(u, id)
    {
      var j :| 0 <= j < |r| && r[j] == u;
      if j < i {
        assert us[j].id != us[i].id;
      } else {
        assert us[i].id != us[j + 1].id;
      }
    }
  }

  /**
   * Ids are not unique in general: when the last record carries the id
   * `length`, deleting any earlier record and then creating one assigns
   * the new record that same id again.
   */
  lemma DeleteThenCreateDuplicatesId(us: seq<User>, i: nat, name: Option<string>, email: Option<string>)
    requires i < |us| - 1
    requires us[|us| - 1].id == |us|
    ensures var after := RemoveAt(us, i);
      var created := after + [NewUser(after, name, email)];
      !UniqueIds(created) && created[|created| - 2].id == created[|created| - 1].id
  {
    var after := RemoveAt(us, i);
    var created := after + [NewUser(after, name, email)];
    assert created[|created| - 2] == after[|after| - 1] == us[|us| - 1];
    assert created[|created| - 1].id == |after| + 1 == |us|;
  }

  /** Repeating the same PUT body leaves the record as the first PUT left it. */
  lemma PatchIdempotent(u: User, name: Option<string>, email: Option<string>)
    ensures Patch(Patch(u, name, email), name, email) == Patch(u, name, email)
  {
  }

  /** A PUT whose fields are all falsy leaves the record unchanged. */
  lemma PatchWithoutValues(u: User, name: Option<string>, email: Option<string>)
    requires !Truthy(name) && !Truthy(email)
    ensures Patch(u, name, email) == u
  {
  }
}
