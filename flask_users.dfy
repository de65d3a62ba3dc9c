/** The Flask user store (flask_rest.py): a global list of open records, each
    a JSON object (key to value), and the five handlers get_users, get_user,
    create_user, update_user and delete_user. Create stores the request body
    itself with its "id" key overwritten; update merges the request body into
    the stored record with `dict.update`, so it may even change the id. */
module FlaskUsers {
  import opened Scan
  import opened Http

  /** A JSON value as the request body decodes it. */
  datatype Value =
    | Int(i: int)
    | Bool(b: bool)
    | Str(s: string)
    | Null
    | Array(items: seq<Value>)
    | Object(fields: map<string, Value>)

  /** A stored user: a JSON object. */
  type Record = map<string, Value>

  const NotFoundMessage := "User not found"
  const UpdateNotFoundMessage := "no user found"
  const DeletedMessage := "user deleted successfully"

  /** The list the process starts with. */
  function Seed(): seq<Record>
  {
    [map["id" := Int(1), "name" := Str("Owais")], map["id" := Int(2), "name" := Str("Sarthak")]]
  }

  /** Python's `v == user_id` for an int `user_id`: ints compare by value,
      a bool is an int (True == 1, False == 0), and a string, None, a list or
      a dict never equals an int. */
  predicate EqualsInt(v: Value, n: int)
  {
    match v
    case Int(i) => i == n
    case Bool(b) => n == if b then 1 else 0
    case _ => false
  }

  /** The generator condition `u["id"] == user_id`. */
  function HasId(id: int): Record -> bool
  {
    (u: Record) => "id" in u && EqualsInt(u["id"], id)
  }

  /** The comprehension condition `u["id"] != user_id`. */
  function LacksId(id: int): Record -> bool
  {
    (u: Record) => !("id" in u && EqualsInt(u["id"], id))
  }

  /** Every record has an "id" key, so `u["id"]` in the handlers never fails. */
  predicate AllHaveIds(users: seq<Record>)
  {
    forall j :: 0 <= j < |users| ==> "id" in users[j]
  }

  /** get_user: the first record, in list order, whose id equals `id`;
      "User not found" when there is none. */
  function Lookup(users: seq<Record>, id: int): (r: Response<Record>)
    ensures r.Ok? || r == NotFound(NotFoundMessage)
    ensures r.Ok? ==> exists k :: 0 <= k < |users| && users[k] == r.body && HasId(id)(r.body) &&
                                  forall j :: 0 <= j < k ==> !HasId(id)(users[j])
    ensures r.NotFound? <==> forall j :: 0 <= j < |users| ==> !HasId(id)(users[j])
  {
    match First(users, HasId(id))
    case Some(k) => Ok(users[k])
    case None => NotFound(NotFoundMessage)
  }

  /** The record create_user stores: the request body with its "id" set to
      one more than the number of records, replacing any id the body had. */
  function NewRecord(users: seq<Record>, body: Record): (r: Record)
    ensures r.Keys == body.Keys + {"id"}
    ensures r["id"] == Int(|users| + 1)
    ensures forall key :: key in body && key != "id" ==> r[key] == body[key]
  {
    body["id" := Int(|users| + 1)]
  }

  /** create_user: the list after appending the new record. */
  function AfterCreate(users: seq<Record>, body: Record): (r: seq<Record>)
    ensures |r| == |users| + 1
    ensures r[..|users|] == users
    ensures r[|users|] == NewRecord(users, body)
  {
    users + [NewRecord(users, body)]
  }

  /** `user.update(body)`: every key of the body takes the body's value, and
      every other key keeps the record's. */
  function Merge(user: Record, body: Record): (r: Record)
    ensures r.Keys == user.Keys + body.Keys
    ensures forall key :: key in body ==> r[key] == body[key]
    ensures forall key :: key in user && key !in body ==> r[key] == user[key]
  {
    user + body
  }

  /** update_user: the list after merging the body into the first record
      whose id equals `id`. */
  function AfterUpdate(users: seq<Record>, id: int, body: Record): (r: seq<Record>)
    ensures |r| == |users|
    ensures Lookup(users, id).NotFound? ==> r == users
    ensures Lookup(users, id).Ok? ==>
      exists k :: 0 <= k < |users| && First(users, HasId(id)) == Some(k) &&
                  r[k] == Merge(users[k], body) &&
                  forall j :: 0 <= j < |r| && j != k ==> r[j] == users[j]
  {
    match First(users, HasId(id))
    case None => users
    case Some(k) => users[k := Merge(users[k], body)]
  }

  /** update_user's reply: the merged record, or "no user found". */
  function UpdateReply(users: seq<Record>, id: int, body: Record): (r: Response<Record>)
    ensures r.Ok? || r.NotFound?
    ensures r.NotFound? <==> Lookup(users, id).NotFound?
    ensures r.NotFound? ==> r.error == UpdateNotFoundMessage
    ensures r.Ok? ==> r.body == Merge(Lookup(users, id).body, body)
  {
    match First(users, HasId(id))
    case None => NotFound(UpdateNotFoundMessage)
    case Some(k) => Ok(Merge(users[k], body))
  }

  /** delete_user: the list rebuilt from the records whose id differs from `id`. */
  function AfterDelete(users: seq<Record>, id: int): (r: seq<Record>)
    ensures |r| <= |users|
    ensures forall j :: 0 <= j < |r| ==> !HasId(id)(r[j])
  {
    Filter(users, LacksId(id))
  }

  class Store {
    var users: seq<Record>

    ghost predicate Valid()
      reads this
    {
      AllHaveIds(users)
    }

    constructor ()
      ensures Valid()
      ensures users == [map["id" := Int(1), "name" := Str("Owais")],
                        map["id" := Int(2), "name" := Str("Sarthak")]]
    {
      users := Seed();
    }

    method GetUsers() returns (r: Response<seq<Record>>)
      ensures r == Ok(users)
    {
      r := Ok(users);
    }

    method GetUser(id: int) returns (r: Response<Record>)
      requires Valid()
      ensures r == Lookup(users, id)
    {
      var k := FindFirst(users, HasId(id));
      match k
      case Some(i) => r := Ok(users[i]);
      case None => r := NotFound(NotFoundMessage);
    }

    method CreateUser(body: Record) returns (r: Response<Record>)
      requires Valid()
      modifies this
      ensures Valid()
      ensures users == AfterCreate(old(users), body)
      ensures r == Created(NewRecord(old(users), body))
    {
      var user := body["id" := Int(|users| + 1)];
      users := users + [user];
      r := Created(user);
    }

    method UpdateUser(id: int, body: Record) returns (r: Response<Record>)
      requires Valid()
      modifies this
      ensures Valid()
      ensures users == AfterUpdate(old(users), id, body)
      ensures r == UpdateReply(old(users), id, body)
    {
      var k := FindFirst(users, HasId(id));
      match k
      case None =>
        r := NotFound(UpdateNotFoundMessage);
      case Some(i) =>
        var user := users[i] + body;
        users := users[i := user];
        r := Ok(user);
    }

    method DeleteUser(id: int) returns (r: Response<string>)
      requires Valid()
      modifies this
      ensures Valid()
      ensures users == AfterDelete(old(users), id)
      ensures r == Ok(DeletedMessage)
    {
      DeleteKeepsIds(users, id);
      users := Select(users, LacksId(id));
      r := Ok(DeletedMessage);
    }
  }

  /** Delete keeps every record's "id" key present. */
  lemma DeleteKeepsIds(users: seq<Record>, id: int)
    requires AllHaveIds(users)
    ensures AllHaveIds(AfterDelete(users, id))
  {
    var after := AfterDelete(users, id);
    forall j | 0 <= j < |after| ensures "id" in after[j] {
      assert after[j] in after;
      FilterMember(users, LacksId(id), after[j]);
    }
  }

  /** Create and update keep every record's "id" key present. */
  lemma CreateUpdateKeepIds(users: seq<Record>, id: int, body: Record)
    requires AllHaveIds(users)
    ensures AllHaveIds(AfterCreate(users, body))
    ensures AllHaveIds(AfterUpdate(users, id, body))
  {
  }

  /** After a create, get_user on the new id finds the new record only when
      no older record already had that id; otherwise the older one shadows it. */
  lemma GetAfterCreate(users: seq<Record>, body: Record)
    ensures Lookup(AfterCreate(users, body), |users| + 1) ==
            if Lookup(users, |users| + 1).NotFound? then Ok(NewRecord(users, body))
            else Lookup(users, |users| + 1)
  {
    var after := AfterCreate(users, body);
    var p := HasId(|users| + 1);
    match First(users, p)
    case None =>
      FirstUnique(after, p, |users|);
    case Some(k) =>
      FirstUnique(after, p, k);
  }

  /** An update whose body does not re-key the record (no "id", or the same
      id again) leaves it found by the same id, now holding the merged contents. */
  lemma GetAfterUpdate(users: seq<Record>, id: int, body: Record)
    requires Lookup(users, id).Ok?
    requires "id" !in body || EqualsInt(body["id"], id)
    ensures Lookup(AfterUpdate(users, id, body), id) == Ok(Merge(Lookup(users, id).body, body))
  {
    var after := AfterUpdate(users, id, body);
    FirstSameMatches(users, after, HasId(id), HasId(id));
  }

  /** An update whose body carries a new "id" moves the record: afterwards it
      is found by the new id and no longer by the old one, when no other
      record has the old id and no earlier record has the new one (an
      earlier record with the new id would hide the moved one). */
  lemma UpdateMovesId(users: seq<Record>, id: int, body: Record, newId: int, k: nat)
    requires k < |users| && HasId(id)(users[k])
    requires forall j :: 0 <= j < |users| && j != k ==> !HasId(id)(users[j])
    requires forall j :: 0 <= j < k ==> !HasId(newId)(users[j])
    requires "id" in body && EqualsInt(body["id"], newId) && newId != id
    ensures Lookup(AfterUpdate(users, id, body), newId) == Ok(Merge(users[k], body))
    ensures Lookup(AfterUpdate(users, id, body), id) == NotFound(NotFoundMessage)
  {
    FirstUnique(users, HasId(id), k);
    var after := AfterUpdate(users, id, body);
    assert after == users[k := Merge(users[k], body)];
    assert after[k]["id"] == body["id"];
    assert !HasId(id)(after[k]);
    FirstUnique(after, HasId(newId), k);
    assert forall j :: 0 <= j < |after| ==> !HasId(id)(after[j]);
  }

  /** After a delete, get_user on that id signals "User not found". */
  lemma GetAfterDelete(users: seq<Record>, id: int)
    ensures Lookup(AfterDelete(users, id), id) == NotFound(NotFoundMessage)
  {
  }

  /** Deleting an id no record has leaves the list as it was. */
  lemma DeleteAbsentIsNoop(users: seq<Record>, id: int)
    requires Lookup(users, id).NotFound?
    ensures AfterDelete(users, id) == users
  {
    FilterAllKept(users, LacksId(id));
  }

  /** Deleting twice is deleting once. */
  lemma DeleteIdempotent(users: seq<Record>, id: int)
    ensures AfterDelete(AfterDelete(users, id), id) == AfterDelete(users, id)
  {
    FilterIdempotent(users, LacksId(id));
  }

  /** Delete keeps the surviving records in their original relative order. */
  lemma DeleteKeepsOrder(front: seq<Record>, back: seq<Record>, id: int)
    ensures AfterDelete(front + back, id) == AfterDelete(front, id) + AfterDelete(back, id)
  {
    FilterAppend(front, back, LacksId(id));
  }

  /** Delete drops every copy of a record whose id equals `id` and keeps
      every copy of every other record. */
  lemma DeleteCount(users: seq<Record>, id: int, u: Record)
    ensures multiset(AfterDelete(users, id))[u] == if HasId(id)(u) then 0 else multiset(users)[u]
  {
    FilterCount(users, LacksId(id), u);
  }

  /** The id quirk on the seed: after delete_user(1), create_user stores a
      second record with id 2, and get_user(2) still answers with "Sarthak". */
  lemma DeleteThenCreateDuplicatesId(name: string)
    ensures var after := AfterCreate(AfterDelete(Seed(), 1), map["name" := Str(name)]);
            after == [map["id" := Int(2), "name" := Str("Sarthak")], map["name" := Str(name), "id" := Int(2)]] &&
            HasId(2)(after[0]) && HasId(2)(after[1]) &&
            Lookup(after, 2) == Ok(map["id" := Int(2), "name" := Str("Sarthak")])
  {
    var owais, sarthak := map["id" := Int(1), "name" := Str("Owais")], map["id" := Int(2), "name" := Str("Sarthak")];
    assert Seed() == [owais] + [sarthak];
    FilterAppend([owais], [sarthak], LacksId(1));
    FilterSingleton(owais, LacksId(1));
    FilterSingleton(sarthak, LacksId(1));
    var after := AfterCreate([sarthak], map["name" := Str(name)]);
    FirstUnique(after, HasId(2), 0);
  }
}
