/**
 * The registry object: the module-level `users` list of app.js together with
 * the route handlers that read it and change it in place.
 */
module Registry {
  import opened Wrappers
  import opened Users

  class UserRegistry {
    /** The stored records, in insertion order. */
    var users: seq<User>

    /** The object invariant: every stored id is a positive integer. */
    ghost predicate Valid()
      reads this
    {
      PositiveIds(users)
    }

    /** Start-up: the registry holds the six seed records. */
    constructor ()
      ensures Valid() && users == Seed()
    {
      users := Seed();
    }

    /** GET /users: the stored records, unfiltered and in insertion order. */
    function ListAll(): (r: seq<User>)
      reads this
      ensures r == users
    {
      users
    }

    /**
     * GET /users/filter: with neither parameter truthy, the same list as
     * GET /users; otherwise an order-preserving selection of the stored
     * records, each of which passes every switched-on test.
     */
    function FilterUsers(name: Option<string>, email: Option<string>): (r: Result<seq<User>, Error>)
      reads this
      ensures !Truthy(name) && !Truthy(email) ==> r == Ok(ListAll())
      ensures r.Ok? ==> IsSubsequence(r.value, users)
      ensures r.Ok? ==> forall u :: u in r.value ==> Selected(u, name, email)
    {
      FilterSpec(users, name, email);
      var r := Filter(users, name, email);
      assert r.Ok? ==> forall u :: u in r.value ==> Selected(u, name, email) by {
        if r.Ok? {
          forall u | u in r.value
            ensures Selected(u, name, email)
          {
            assert multiset(r.value)[u] > 0;
          }
        }
      }
      r
    }

    /** GET /users/:id: the first stored record with the id, or `NotFound`. */
    function GetById(id: Option<int>): (r: Result<User, Error>)
      reads this
      ensures r.Ok? ==> exists i :: 0 <= i < |users| && users[i] == r.value && HasId(r.value, id) &&
                                    forall j :: 0 <= j < i ==> !HasId(users[j], id)
      ensures r.Err? <==> forall u :: u in users ==> !HasId(u, id)
      ensures id.None? ==> r == Err(NotFound)
      ensures Valid() && id.Some? && id.value <= 0 ==> r == Err(NotFound)
    {
      Lookup(users, id)
    }

    /**
     * POST /users: appends one record whose id is the number of stored
     * records plus one, with the fields as supplied, and returns it.
     */
    method Create(name: Option<string>, email: Option<string>) returns (newUser: User)
      requires Valid()
      modifies this
      ensures Valid()
      ensures newUser == NewUser(old(users), name, email)
      ensures users == old(users) + [newUser]
    {
      newUser := User(|users| + 1, name, email);
      users := users + [newUser];
    }

    /**
     * PUT /users/:id: `NotFound` and no change when no record has the id;
     * otherwise the first such record takes each supplied truthy field, keeps
     * its other fields, its id and its position, and is returned. No other
     * record changes.
     */
    method Update(id: Option<int>, name: Option<string>, email: Option<string>) returns (r: Result<User, Error>)
      requires Valid()
      modifies this
      ensures Valid()
      ensures FindIndex(old(users), id).None? ==> r == Err(NotFound) && users == old(users)
      ensures FindIndex(old(users), id).Some? ==>
        var i := FindIndex(old(users), id).value;
        var before := old(users)[i];
        r.Ok? && users == old(users)[i := r.value] && r.value == Patch(before, name, email) &&
        r.value.id == before.id &&
        r.value.name == (if Truthy(name) then name else before.name) &&
        r.value.email == (if Truthy(email) then email else before.email)
    {
      var found := FindIndex(users, id);
      if found.None? {
        return Err(NotFound);
      }
      var i := found.value;
      var user := users[i];
      user := user.(name := OrElse(name, user.name));
      user := user.(email := OrElse(email, user.email));
      users := users[i := user];
      r := Ok(user);
    }

    /**
     * DELETE /users/:id: `NotFound` and no change when no record has the id;
     * otherwise the first such record is spliced out.
     */
    method Delete(id: Option<int>) returns (r: Result<(), Error>)
      requires Valid()
      modifies this
      ensures Valid()
      ensures FindIndex(old(users), id).None? ==> r == Err(NotFound) && users == old(users)
      ensures FindIndex(old(users), id).Some? ==>
        r == Ok(()) && users == RemoveAt(old(users), FindIndex(old(users), id).value)
    {
      var userIndex := FindIndex(users, id);
      if userIndex.None? {
        return Err(NotFound);
      }
      users := users[..userIndex.value] + users[userIndex.value + 1..];
      r := Ok(());
    }
  }
}
