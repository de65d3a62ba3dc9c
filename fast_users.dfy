/** The FastAPI user store (fast.py): a global list of `{id, name}` records
    and the five handlers get_users, get_user, create_user, update_user and
    delete_user. The list is the field `users` of a `Store`; each handler is
    a method, specified by a function on the list that the lemmas below
    reason about. */
module FastUsers {
  import opened Scan
  import opened Http

  /** A record of this store: exactly an id and a name. */
  datatype User = User(id: int, name: string)

  const NotFoundMessage := "User not found"
  const DeletedMessage := "User deleted"

  /** The list the process starts with. */
  function Seed(): seq<User>
  {
    [User(1, "Owais"), User(2, "Sarthak")]
  }

  /** The generator condition `u["id"] == user_id`. */
  function HasId(id: int): User -> bool
  {
    (u: User) => u.id == id
  }

  /** The comprehension condition `u["id"] != user_id`. */
  function LacksId(id: int): User -> bool
  {
    (u: User) => u.id != id
  }

  /** No two records share an id. The store does not keep this: see
      DeleteThenCreateDuplicatesId. */
  predicate UniqueIds(users: seq<User>)
  {
    forall i, j :: 0 <= i < j < |users| ==> users[i].id != users[j].id
  }

  /** get_user: the first record, in list order, whose id is `id`; NotFound
      when there is none. */
  function Lookup(users: seq<User>, id: int): (r: Response<User>)
    ensures r.Ok? || r == NotFound(NotFoundMessage)
    ensures r.Ok? ==> exists k :: 0 <= k < |users| && users[k] == r.body && r.body.id == id &&
                                  forall j :: 0 <= j < k ==> users[j].id != id
    ensures r.NotFound? <==> forall j :: 0 <= j < |users| ==> users[j].id != id
  {
    match First(users, HasId(id))
    case Some(k) => Ok(users[k])
    case None => NotFound(NotFoundMessage)
  }

  /** create_user: the list after appending a record whose id is one more
      than the number of records before it, whatever ids those carry. */
  function AfterCreate(users: seq<User>, name: string): (r: seq<User>)
    ensures |r| == |users| + 1
    ensures r[..|users|] == users
    ensures r[|users|] == User(|users| + 1, name)
  {
    users + [User(|users| + 1, name)]
  }

  /** update_user: the list after renaming the first record with id `id`. */
  function AfterUpdate(users: seq<User>, id: int, name: string): (r: seq<User>)
    ensures |r| == |users|
    ensures forall j :: 0 <= j < |r| ==> r[j].id == users[j].id
    ensures Lookup(users, id).NotFound? ==> r == users
    ensures Lookup(users, id).Ok? ==>
      exists k :: 0 <= k < |users| && First(users, HasId(id)) == Some(k) &&
                  r[k] == User(id, name) &&
                  forall j :: 0 <= j < |r| && j != k ==> r[j] == users[j]
  {
    match First(users, HasId(id))
    case None => users
    case Some(k) => users[k := users[k].(name := name)]
  }

  /** delete_user: the list rebuilt without the records whose id is `id`. */
  function AfterDelete(users: seq<User>, id: int): (r: seq<User>)
    ensures |r| <= |users|
    ensures forall j :: 0 <= j < |r| ==> r[j].id != id
  {
    Filter(users, LacksId(id))
  }

  class Store {
    var users: seq<User>

    constructor ()
      ensures users == [User(1, "Owais"), User(2, "Sarthak")]
    {
      users := Seed();
    }

    method GetUsers() returns (r: Response<seq<User>>)
      ensures r == Ok(users)
    {
      r := Ok(users);
    }

    method GetUser(id: int) returns (r: Response<User>)
      ensures r == Lookup(users, id)
    {
      var k := FindFirst(users, HasId(id));
      match k
      case Some(i) => r := Ok(users[i]);
      case None => r := NotFound(NotFoundMessage);
    }

    method CreateUser(name: string) returns (r: Response<User>)
      modifies this
      ensures users == AfterCreate(old(users), name)
      ensures r == Created(User(|old(users)| + 1, name))
    {
      var user := User(|users| + 1, name);
      users := users + [user];
      r := Created(user);
    }

    method UpdateUser(id: int, name: string) returns (r: Response<User>)
      modifies this
      ensures users == AfterUpdate(old(users), id, name)
      ensures r == Lookup(users, id)
    {
      var k := FindFirst(users, HasId(id));
      match k
      case None =>
        r := NotFound(NotFoundMessage);
      case Some(i) =>
        ghost var before := users;
        users := users[i := users[i].(name := name)];
        FirstSameMatches(before, users, HasId(id), HasId(id));
        r := Ok(users[i]);
    }

    method DeleteUser(id: int) returns (r: Response<string>)
      modifies this
      ensures users == AfterDelete(old(users), id)
      ensures r == Ok(DeletedMessage)
    {
      users := Select(users, LacksId(id));
      r := Ok(DeletedMessage);
    }
  }

  /** After a create, get_user on the new id finds the new record only when
      no older record already had that id; otherwise the older one shadows it. */
  lemma GetAfterCreate(users: seq<User>, name: string)
    ensures Lookup(AfterCreate(users, name), |users| + 1) ==
            if Lookup(users, |users| + 1).NotFound? then Ok(User(|users| + 1, name))
            else Lookup(users, |users| + 1)
  {
    var after := AfterCreate(users, name);
    var p := HasId(|users| + 1);
    match First(users, p)
    case None =>
      FirstUnique(after, p, |users|);
    case Some(k) =>
      FirstUnique(after, p, k);
  }

  /** After an update of a present id, get_user on that id returns the
      renamed record: the id did not move and no earlier record gained it. */
  lemma GetAfterUpdate(users: seq<User>, id: int, name: string)
    requires Lookup(users, id).Ok?
    ensures Lookup(AfterUpdate(users, id, name), id) == Ok(User(id, name))
  {
    var after := AfterUpdate(users, id, name);
    FirstSameMatches(users, after, HasId(id), HasId(id));
  }

  /** An update never touches any other id's lookup. */
  lemma GetOtherAfterUpdate(users: seq<User>, id: int, name: string, other: int)
    requires other != id
    ensures Lookup(AfterUpdate(users, id, name), other) == Lookup(users, other)
  {
    var after := AfterUpdate(users, id, name);
    FirstSameMatches(users, after, HasId(other), HasId(other));
  }

  /** After a delete, get_user on that id signals NotFound. */
  lemma GetAfterDelete(users: seq<User>, id: int)
    ensures Lookup(AfterDelete(users, id), id) == NotFound(NotFoundMessage)
  {
  }

  /** Deleting an id no record has leaves the list as it was. */
  lemma DeleteAbsentIsNoop(users: seq<User>, id: int)
    requires Lookup(users, id).NotFound?
    ensures AfterDelete(users, id) == users
  {
    FilterAllKept(users, LacksId(id));
  }

  /** Deleting twice is deleting once. */
  lemma DeleteIdempotent(users: seq<User>, id: int)
    ensures AfterDelete(AfterDelete(users, id), id) == AfterDelete(users, id)
  {
    FilterIdempotent(users, LacksId(id));
  }

  /** Delete keeps the surviving records in their original relative order:
      it distributes over any split of the list. */
  lemma DeleteKeepsOrder(front: seq<User>, back: seq<User>, id: int)
    ensures AfterDelete(front + back, id) == AfterDelete(front, id) + AfterDelete(back, id)
  {
    FilterAppend(front, back, LacksId(id));
  }

  /** Delete drops every copy of a record with the id, not only the first,
      and keeps every copy of every other record. */
  lemma DeleteCount(users: seq<User>, id: int, u: User)
    ensures multiset(AfterDelete(users, id))[u] == if u.id == id then 0 else multiset(users)[u]
  {
    FilterCount(users, LacksId(id), u);
  }

  /** Appending a record keeps ids unique when its id is new. */
  lemma UniqueAppend(users: seq<User>, u: User)
    requires UniqueIds(users)
    requires forall j :: 0 <= j < |users| ==> users[j].id != u.id
    ensures UniqueIds(users + [u])
  {
  }

  /** Delete keeps ids unique when they were. */
  lemma {:induction false} DeleteKeepsUnique(users: seq<User>, id: int)
    requires UniqueIds(users)
    ensures UniqueIds(AfterDelete(users, id))
  {
    if |users| > 0 {
      var init, last := users[..|users| - 1], users[|users| - 1];
      assert users == init + [last];
      assert UniqueIds(init);
      DeleteKeepsUnique(init, id);
      FilterAppend(init, [last], LacksId(id));
      FilterSingleton(last, LacksId(id));
      var kept := AfterDelete(init, id);
      assert AfterDelete(users, id) == kept + Filter([last], LacksId(id));
      if last.id != id {
        forall i | 0 <= i < |kept| ensures kept[i].id != last.id {
          assert kept[i] in kept;
          FilterMember(init, LacksId(id), kept[i]);
          var j :| 0 <= j < |init| && init[j] == kept[i];
          assert users[j] == init[j];
        }
        UniqueAppend(kept, last);
      } else {
        assert AfterDelete(users, id) == kept;
      }
    }
  }

  /** An update keeps ids unique when they were: it changes no id. */
  lemma UpdateKeepsUnique(users: seq<User>, id: int, name: string)
    requires UniqueIds(users)
    ensures UniqueIds(AfterUpdate(users, id, name))
  {
  }

  /** Create keeps ids unique exactly when no record already carries the id
      it computes from the length. */
  lemma CreateUniqueIff(users: seq<User>, name: string)
    ensures UniqueIds(AfterCreate(users, name)) <==>
            UniqueIds(users) && Lookup(users, |users| + 1).NotFound?
  {
    var after := AfterCreate(users, name);
    if UniqueIds(after) {
      forall j | 0 <= j < |users| ensures users[j].id != |users| + 1 {
        assert after[j] == users[j];
      }
    }
  }

  /** The seeded ids are unique. */
  lemma SeedUnique()
    ensures UniqueIds(Seed())
  {
  }

  /** On a list whose ids are 1, 2, ..., n in order (the seed, or the seed
      followed by creates only), deleting any id below n and then creating
      issues the id n a second time. */
  lemma DeleteThenCreateReusesId(users: seq<User>, d: int, name: string)
    requires forall j :: 0 <= j < |users| ==> users[j].id == j + 1
    requires 1 <= d < |users|
    ensures var after := AfterCreate(AfterDelete(users, d), name);
            |after| == |users| && after[|users| - 2].id == after[|users| - 1].id == |users| &&
            !UniqueIds(after)
  {
    var n := |users|;
    var front, hit, back := users[..d - 1], users[d - 1], users[d..];
    assert users == front + [hit] + back;
    FilterAppend(front + [hit], back, LacksId(d));
    FilterAppend(front, [hit], LacksId(d));
    FilterSingleton(hit, LacksId(d));
    FilterAllKept(front, LacksId(d));
    FilterAllKept(back, LacksId(d));
    var deleted := AfterDelete(users, d);
    assert deleted == front + back;
    assert deleted[n - 2] == users[n - 1];
    var after := AfterCreate(deleted, name);
    assert after[n - 2] == users[n - 1];
    assert after[n - 1] == User(n, name);
  }

  /** The example of the quirk: on the seed, delete_user(1) then create_user
      returns id 2, which "Sarthak" still has, and get_user(2) keeps answering
      with "Sarthak". */
  lemma DeleteThenCreateDuplicatesId(name: string)
    ensures AfterCreate(AfterDelete(Seed(), 1), name) == [User(2, "Sarthak"), User(2, name)]
    ensures !UniqueIds(AfterCreate(AfterDelete(Seed(), 1), name))
    ensures Lookup(AfterCreate(AfterDelete(Seed(), 1), name), 2) == Ok(User(2, "Sarthak"))
  {
    var owais, sarthak := User(1, "Owais"), User(2, "Sarthak");
    assert Seed() == [owais] + [sarthak];
    FilterAppend([owais], [sarthak], LacksId(1));
    FilterSingleton(owais, LacksId(1));
    FilterSingleton(sarthak, LacksId(1));
    assert AfterDelete(Seed(), 1) == [sarthak];
    var after := AfterCreate([sarthak], name);
    assert after == [sarthak, User(2, name)];
    FirstUnique(after, HasId(2), 0);
  }

  /** A session from the seed: create "Zed", rename 1 to "Owais2", delete 2. */
  lemma SeedSession()
    ensures AfterCreate(Seed(), "Zed") == [User(1, "Owais"), User(2, "Sarthak"), User(3, "Zed")]
    ensures Lookup(AfterUpdate(AfterCreate(Seed(), "Zed"), 1, "Owais2"), 1) == Ok(User(1, "Owais2"))
    ensures var s := AfterDelete(AfterUpdate(AfterCreate(Seed(), "Zed"), 1, "Owais2"), 2);
            s == [User(1, "Owais2"), User(3, "Zed")] && Lookup(s, 2).NotFound?
  {
    var created := AfterCreate(Seed(), "Zed");
    assert created == [User(1, "Owais"), User(2, "Sarthak"), User(3, "Zed")];
    SessionUpdate();
    SessionDelete();
  }

  /** The rename step of SeedSession. */
  lemma SessionUpdate()
    ensures var s := AfterUpdate([User(1, "Owais"), User(2, "Sarthak"), User(3, "Zed")], 1, "Owais2");
            s == [User(1, "Owais2"), User(2, "Sarthak"), User(3, "Zed")] && Lookup(s, 1) == Ok(User(1, "Owais2"))
  {
    var created := [User(1, "Owais"), User(2, "Sarthak"), User(3, "Zed")];
    FirstUnique(created, HasId(1), 0);
    var updated := AfterUpdate(created, 1, "Owais2");
    assert updated == [User(1, "Owais2"), User(2, "Sarthak"), User(3, "Zed")];
    FirstUnique(updated, HasId(1), 0);
  }

  /** The delete step of SeedSession. */
  lemma SessionDelete()
    ensures AfterDelete([User(1, "Owais2"), User(2, "Sarthak"), User(3, "Zed")], 2) == [User(1, "Owais2"), User(3, "Zed")]
  {
    var front, back := [User(1, "Owais2")] + [User(2, "Sarthak")], [User(3, "Zed")];
    assert [User(1, "Owais2"), User(2, "Sarthak"), User(3, "Zed")] == front + back;
    FilterAppend(front, back, LacksId(2));
    FilterAppend([User(1, "Owais2")], [User(2, "Sarthak")], LacksId(2));
    FilterSingleton(User(1, "Owais2"), LacksId(2));
    FilterSingleton(User(2, "Sarthak"), LacksId(2));
    FilterSingleton(User(3, "Zed"), LacksId(2));
  }

  /** The same session driven through the store's handlers. */
  method SeedSessionOnStore()
  {
    var store := new Store();
    var created := store.CreateUser("Zed");
    assert created == Created(User(3, "Zed"));
    var updated := store.UpdateUser(1, "Owais2");
    SeedSession();
    assert updated == Ok(User(1, "Owais2"));
    var deleted := store.DeleteUser(2);
    var got := store.GetUser(2);
    assert got == NotFound(NotFoundMessage);
    var all := store.GetUsers();
    assert all == Ok([User(1, "Owais2"), User(3, "Zed")]);
  }
}
