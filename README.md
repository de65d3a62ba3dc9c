# In-memory user store, modelled in Dafny

The repository holds two toy HTTP services over one in-memory list of user
records: `fast.py` (FastAPI) and `flask_rest.py` (Flask). Each keeps a global
list seeded with `{1, "Owais"}` and `{2, "Sarthak"}` and has five handlers:
list all users, get one by id, create, update and delete.

This project models that store, file by file:

- `scan.dfy` (module `Scan`) holds the two list idioms both files use:
  `next((u for u in users if ...), None)`, which finds the first match in
  list order (`First`, computed by the loop `FindFirst`), and the list
  comprehension `[u for u in users if ...]`, which keeps the matching
  elements in order (`Filter`, computed by the loop `Select`).
- `http.dfy` (module `Http`) holds the handlers' replies as a datatype:
  `Ok` (200), `Created` (201) and `NotFound` (404 with its error text).
- `fast_users.dfy` (module `FastUsers`) models `fast.py`. Records are
  exactly `User(id, name)`, and update sets only the name.
- `flask_users.dfy` (module `FlaskUsers`) models `flask_rest.py`. Records
  are open JSON objects (`map<string, Value>`). Create stores the request
  body with `"id"` overwritten. Update merges the body into the record
  (`dict.update`), so it can change the record's id.

In each module the global list is the field `users` of a class `Store`. Each
handler is a method of that class. Its `ensures` ties the new list and the
reply to a function of the old list (`Lookup`, `AfterCreate`, `AfterUpdate`,
`AfterDelete`). The lemmas then prove what the handlers promise about those
functions: first-match lookup, append at the end, one record changed in
place, order-preserving delete of every match, and the id-reuse quirk.

The new id is `len(users) + 1`, computed from the current length and not
from a counter. After a delete, create can therefore issue an id that a
surviving record already has. The model keeps this behaviour and proves it
(`DeleteThenCreateReusesId`, `DeleteThenCreateDuplicatesId`). The
duplicate is also unreachable by get, because the older record shadows it
(`GetAfterCreate`). Nothing in either file keeps ids unique, and the Flask
update merges every key of the body, `"id"` included. The model states
both behaviours as the code has them instead of the unique-id store the
services are meant to be.

## Model

| member | source | states |
|---|---|---|
| Scan.First | fast.py:25 | the index of the first element satisfying the condition, with no earlier element satisfying it; None exactly when no element does |
| Scan.FindFirst | flask_rest.py:21 | the linear scan behind `next` over a filtered generator returns exactly `First` |
| Scan.Filter | fast.py:51 | the comprehension's result is no longer than the input and every kept element satisfies the condition |
| Scan.Select | flask_rest.py:51 | the comprehension loop builds exactly `Filter` |
| Scan.FilterAppend | fast.py:51 | filtering a concatenation is the concatenation of the filtered parts, so kept elements stay in their original relative order |
| Scan.FilterCount | flask_rest.py:51 | each element keeps its number of occurrences if it satisfies the condition and has none left otherwise |
| Scan.FilterMember | flask_rest.py:51 | an element is in the result exactly when it was in the input and satisfies the condition |
| Scan.FilterAllKept | fast.py:51 | when every element satisfies the condition, the comprehension returns the list unchanged |
| Scan.FilterIdempotent | fast.py:51 | filtering twice with one condition equals filtering once |
| FastUsers.Lookup | fast.py:24-28 | get_user gives the first record in list order with the id; "User not found" exactly when no record has it |
| FastUsers.AfterCreate | fast.py:32-35 | create_user appends a record with id length + 1 and the given name at the end: length grows by one and every earlier record keeps its position and value |
| FastUsers.AfterUpdate | fast.py:39-45 | an update of a present id renames only the first matching record, and every other record is unchanged; no id and no length changes; an absent id leaves the list unchanged |
| FastUsers.AfterDelete | fast.py:49-52 | no record with the id remains and the list does not grow |
| FastUsers.Store.constructor | fast.py:8-11 | the store starts as exactly `[{1, "Owais"}, {2, "Sarthak"}]` |
| FastUsers.Store.GetUsers | fast.py:19-20 | returns the current list with status Ok and changes nothing |
| FastUsers.Store.GetUser | fast.py:24-28 | returns `Lookup` of the current list and changes nothing |
| FastUsers.Store.CreateUser | fast.py:32-35 | the list becomes `AfterCreate` of the old list; the reply is Created with the new record, whose id is the old length plus one |
| FastUsers.Store.UpdateUser | fast.py:39-45 | the list becomes `AfterUpdate` of the old list; the reply is what get_user on the id now returns (the renamed record, or "User not found") |
| FastUsers.Store.DeleteUser | fast.py:49-52 | the list becomes `AfterDelete` of the old list; the reply is Ok "User deleted", also when nothing matched |
| FastUsers.GetAfterCreate | fast.py:33-34 | get_user on the new id returns the new record when no older record had that id, and otherwise the older record |
| FastUsers.GetAfterUpdate | fast.py:40-44 | after updating a present id, get_user on that id returns the record with the new name and the same id |
| FastUsers.GetOtherAfterUpdate | fast.py:40-44 | an update does not change what get_user returns for any other id |
| FastUsers.GetAfterDelete | fast.py:51 | after delete_user(id), get_user(id) signals "User not found" |
| FastUsers.DeleteAbsentIsNoop | fast.py:51 | deleting an id that no record has leaves the list unchanged |
| FastUsers.DeleteIdempotent | fast.py:51 | deleting twice equals deleting once |
| FastUsers.DeleteKeepsOrder | fast.py:51 | delete distributes over any split of the list, so survivors keep their relative order |
| FastUsers.DeleteCount | fast.py:51 | delete removes every copy of every record with the id, not just the first, and keeps every copy of every other record |
| FastUsers.DeleteKeepsUnique | fast.py:51 | delete keeps ids unique when they were |
| FastUsers.UpdateKeepsUnique | fast.py:44 | update keeps ids unique when they were, since it changes no id |
| FastUsers.CreateUniqueIff | fast.py:33-34 | after create, ids are unique exactly when they were before and no record already had id length + 1 |
| FastUsers.SeedUnique | fast.py:8-11 | the seeded ids are unique |
| FastUsers.DeleteThenCreateReusesId | fast.py:33 | on any list whose ids are 1..n in order, deleting an id below n and then creating issues id n a second time |
| FastUsers.DeleteThenCreateDuplicatesId | fast.py:51 | on the seed, delete 1 then create gives `[{2, "Sarthak"}, {2, name}]`; the ids are no longer unique and get_user(2) still returns "Sarthak" |
| FastUsers.SeedSession | fast.py:32-51 | from the seed: create "Zed" gives id 3; renaming 1 to "Owais2" is visible to get_user(1); deleting 2 leaves `[{1, "Owais2"}, {3, "Zed"}]` and get_user(2) is not found |
| FlaskUsers.Lookup | flask_rest.py:20-24 | get_user gives the first record in list order whose `"id"` equals the id under Python equality; "User not found" exactly when none does |
| FlaskUsers.NewRecord | flask_rest.py:29-30 | the created record has the body's keys plus `"id"`, its `"id"` is the old length plus one whatever the body held, and every other body key keeps its value |
| FlaskUsers.AfterCreate | flask_rest.py:28-32 | create_user appends the new record at the end: length grows by one and earlier records are unchanged |
| FlaskUsers.Merge | flask_rest.py:43 | `dict.update`: the keys are the union; each body key takes the body's value; each other key keeps the record's value |
| FlaskUsers.AfterUpdate | flask_rest.py:37-44 | an update of a present id replaces only the first matching record, by its merge with the body, and keeps every other record and the length; an absent id leaves the list unchanged |
| FlaskUsers.UpdateReply | flask_rest.py:39-44 | the reply is Ok or NotFound, never Created; "no user found" exactly when get_user would not find the id, and otherwise Ok with the merged record |
| FlaskUsers.AfterDelete | flask_rest.py:49-52 | no remaining record's id equals the deleted id and the list does not grow |
| FlaskUsers.Store.constructor | flask_rest.py:6-9 | the store starts as exactly the two seeded records, each with an `"id"` key |
| FlaskUsers.Store.GetUsers | flask_rest.py:14-15 | returns the current list with status Ok and changes nothing |
| FlaskUsers.Store.GetUser | flask_rest.py:20-24 | returns `Lookup` of the current list and changes nothing |
| FlaskUsers.Store.CreateUser | flask_rest.py:28-32 | the list becomes `AfterCreate` of the old list; the reply is Created with the stored record; every record still has an `"id"` |
| FlaskUsers.Store.UpdateUser | flask_rest.py:37-44 | the list becomes `AfterUpdate` of the old list and the reply is `UpdateReply`; every record still has an `"id"` |
| FlaskUsers.Store.DeleteUser | flask_rest.py:49-52 | the list becomes `AfterDelete` of the old list; the reply is Ok "user deleted successfully"; every record still has an `"id"` |
| FlaskUsers.DeleteKeepsIds | flask_rest.py:51 | delete keeps every record's `"id"` key present |
| FlaskUsers.CreateUpdateKeepIds | flask_rest.py:30-43 | create and update keep every record's `"id"` key present, so `u["id"]` never fails |
| FlaskUsers.GetAfterCreate | flask_rest.py:30-31 | get_user on the new id returns the new record when no older record had that id, and otherwise the older record |
| FlaskUsers.GetAfterUpdate | flask_rest.py:42-43 | after merging a body that has no `"id"` or repeats the same id, get_user on that id returns the merged record |
| FlaskUsers.UpdateMovesId | flask_rest.py:43 | a body carrying a new `"id"` re-keys the record: when no other record has the old id and no earlier record has the new id, get_user finds it by the new id and no longer by the old one |
| FlaskUsers.GetAfterDelete | flask_rest.py:51 | after delete_user(id), get_user(id) signals "User not found" |
| FlaskUsers.DeleteAbsentIsNoop | flask_rest.py:51 | deleting an id that no record has leaves the list unchanged |
| FlaskUsers.DeleteIdempotent | flask_rest.py:51 | deleting twice equals deleting once |
| FlaskUsers.DeleteKeepsOrder | flask_rest.py:51 | delete distributes over any split of the list, so survivors keep their relative order |
| FlaskUsers.DeleteCount | flask_rest.py:51 | delete removes every copy of every record whose id matches, and keeps every copy of every other record |
| FlaskUsers.DeleteThenCreateDuplicatesId | flask_rest.py:30 | on the seed, delete 1 then create `{"name": n}` stores a second record with id 2; get_user(2) still returns "Sarthak" |

## Left out

- Framework plumbing is not modelled: app construction, route decorators, `jsonify`, HTTP status codes and `app.run`. Replies are the `Response` datatype.
- Request validation and parsing are not modelled: the pydantic `User` schema in fast.py and `request.json` in flask_rest.py. Handlers receive a name, or a JSON object, that is already decoded.
- Flask request bodies that are not JSON objects are left out. For `create_user` any such body raises at the assignment of `"id"`. `update_user` accepts a list of key/value pairs, since `dict.update` takes one: `[]` changes nothing and `[["id", 7]]` re-keys the record. The model takes only JSON-object bodies.
- JSON floating-point numbers are not values of `FlaskUsers.Value`. In Python `1.0 == 1`, so a float id could also match an int id.
- Dictionary key order is not modelled. Records are maps, and the Python dicts' insertion order shows only in the JSON output.
- Aliasing between a returned dict and the stored one is not modelled. Update replaces list element k with the updated record.
- Concurrent requests are not modelled. Each handler runs as one atomic step on the list.
- Python's truthiness test `if not user` is modelled as found or not found. A stored record always has an `"id"` key, so it is never an empty dict.
- A record without an `"id"` key would make the handlers raise `KeyError`. The model excludes it with the invariant `FlaskUsers.Store.Valid` (every record has an `"id"`). The constructor establishes that invariant and every handler keeps it.
