/** `UsersController`: an in-memory, ordered store of user records with list,
    get, create, update and delete, the controller's exceptions being
    returned as `Err` values. */
module UsersController {
  import opened Wrappers
  import opened Decimal
  import opened Email

  datatype User = User(id: string, name: string, email: string)

  /** The body of an update: each field may be absent, and a present field
      may be the empty string (which JavaScript treats as false). */
  datatype Patch = Patch(id: Option<string>, name: Option<string>, email: Option<string>)

  /** Which of the two BadRequestException messages is thrown. */
  datatype BadRequestReason =
    | MissingFields  // "Name and email are required"
    | EmailTaken     // "Email already exists"

  /** The controller's exceptions: BadRequestException, NotFoundException and
      UnprocessableEntityException with the email rule that failed. */
  datatype Error =
    | BadRequest(reason: BadRequestReason)
    | NotFound
    | Unprocessable(rule: Rule)

  /** JavaScript truthiness of an optional string field. */
  predicate Truthy(s: Option<string>) {
    s.Some? && s.value != ""
  }

  predicate HasId(users: seq<User>, id: string) {
    exists i :: 0 <= i < |users| && users[i].id == id
  }

  /** `k` is the position of the first record whose id is `id`. */
  predicate FirstWithId(users: seq<User>, id: string, k: int) {
    && 0 <= k < |users|
    && users[k].id == id
    && forall j :: 0 <= j < k ==> users[j].id != id
  }

  predicate HasEmail(users: seq<User>, email: string) {
    exists i :: 0 <= i < |users| && users[i].email == email
  }

  predicate UniqueIds(users: seq<User>) {
    forall i, j :: 0 <= i < j < |users| ==> users[i].id != users[j].id
  }

  predicate UniqueEmails(users: seq<User>) {
    forall i, j :: 0 <= i < j < |users| ==> users[i].email != users[j].email
  }

  /** Every id is a numeral that `parseInt` reads in full. */
  predicate DecimalIds(users: seq<User>) {
    forall i :: 0 <= i < |users| ==> IsDecimal(users[i].id)
  }

  /** `users.findIndex(user => user.id === id)`. */
  function IndexOfId(users: seq<User>, id: string): (k: int)
    ensures k == -1 <==> !HasId(users, id)
    ensures k != -1 ==> FirstWithId(users, id, k)
  {
    if |users| == 0 then -1
    else if users[0].id == id then 0
    else
      var k := IndexOfId(users[1..], id);
      if k == -1 then -1 else k + 1
  }

  /** `users.find(user => user.email === email)`. */
  function FindByEmail(users: seq<User>, email: string): (r: Option<User>)
    ensures r.Some? <==> HasEmail(users, email)
    ensures r.Some? ==> r.value in users && r.value.email == email
  {
    if |users| == 0 then None
    else if users[0].email == email then Some(users[0])
    else FindByEmail(users[1..], email)
  }

  /** The `reduce` of `Math.max(max, parseInt(user.id))` over `users`,
      starting from `acc`. */
  function MaxIdFrom(acc: nat, users: seq<User>): (m: nat)
    requires DecimalIds(users)
    ensures acc <= m
    ensures forall i :: 0 <= i < |users| ==> ParseDecimal(users[i].id) <= m
    ensures m == acc || exists i :: 0 <= i < |users| && m == ParseDecimal(users[i].id)
    decreases |users|
  {
    if |users| == 0 then acc
    else
      var first := ParseDecimal(users[0].id);
      var m := MaxIdFrom(if acc < first then first else acc, users[1..]);
      assert forall i :: 1 <= i < |users| ==> users[i] == users[1..][i - 1];
      m
  }

  /** `maxId`: the largest parsed id, or 0 for an empty store. */
  function MaxId(users: seq<User>): (m: nat)
    requires DecimalIds(users)
  {
    MaxIdFrom(0, users)
  }

  /** The id `createUser` assigns is held by no existing record. */
  lemma NewIdIsFresh(users: seq<User>)
    requires DecimalIds(users)
    ensures !HasId(users, NatToDecimal(MaxId(users) + 1))
  {
    ParsePrinted(MaxId(users) + 1);
  }

  /** `{ ...user, ...body }`: the fields present in the patch win. */
  function Merge(user: User, patch: Patch): User {
    User(
      if patch.id.Some? then patch.id.value else user.id,
      if patch.name.Some? then patch.name.value else user.name,
      if patch.email.Some? then patch.email.value else user.email)
  }

  /** After removing the first record with `id` from a store whose ids are
      unique, no record has that id any more. */
  lemma RemovedIdIsGone(users: seq<User>, id: string, k: int)
    requires UniqueIds(users) && FirstWithId(users, id, k)
    ensures !HasId(users[..k] + users[k + 1..], id)
  {
  }

  /** The eight records the controller starts with. */
  function Seed(): seq<User> {
    [ User("1", "John Doe", "john.doe@example.com"),
      User("2", "Jane Doe", "jane.doe@example.com"),
      User("3", "John Smith", "john.smith@example.com"),
      User("4", "Jane Smith", "jane.smith@example.com"),
      User("5", "Robert Johnson", "robert.johnson@example.com"),
      User("6", "Emily Williams", "emily.williams@example.com"),
      User("7", "Michael Brown", "michael.brown@example.com"),
      User("8", "Sarah Davis", "sarah.davis@example.com") ]
  }

  /** The seed's ids are distinct numerals. */
  lemma SeedIds()
    ensures |Seed()| == 8 && UniqueIds(Seed()) && DecimalIds(Seed())
  {
  }

  /** The seed's emails are distinct. */
  lemma SeedEmails()
    ensures UniqueEmails(Seed())
  {
  }

  /** The seeded ids are the numerals "1" to "8", in order. */
  lemma SeedIdsCount()
    ensures |Seed()| == 8
    ensures forall i :: 0 <= i < |Seed()| ==> IsDecimal(Seed()[i].id) && ParseDecimal(Seed()[i].id) == i + 1
  {
  }

  /** When the ids count 1, 2, ... up the store, the largest is the count. */
  lemma MaxIdOfCounting(users: seq<User>)
    requires forall i :: 0 <= i < |users| ==> IsDecimal(users[i].id) && ParseDecimal(users[i].id) == i + 1
    ensures MaxId(users) == |users|
  {
    if |users| > 0 {
      assert ParseDecimal(users[|users| - 1].id) == |users|;
    }
  }

  /** The largest seeded id is 8, so the next record gets id "9". */
  lemma SeedNextId()
    ensures DecimalIds(Seed()) && NatToDecimal(MaxId(Seed()) + 1) == "9"
  {
    SeedIdsCount();
    MaxIdOfCounting(Seed());
  }

  class Store {
    /** The controller's `users` array, in insertion order. */
    var users: seq<User>

    /** A store seeded with any list of records. */
    constructor (seed: seq<User>)
      ensures users == seed
    {
      users := seed;
    }

    /** The store as the controller builds it. */
    constructor Seeded()
      ensures users == Seed()
    {
      users := Seed();
    }

    /** `getUsers`: all records, in order. */
    method GetUsers() returns (list: seq<User>)
      ensures list == users
    {
      list := users;
    }

    /** `getUser`: the first record with `id`, or NotFound. */
    method GetUser(id: string) returns (r: Result<User, Error>)
      ensures r.Err? <==> !HasId(users, id)
      ensures r.Err? ==> r.error == NotFound
      ensures r.Ok? ==> exists k :: FirstWithId(users, id, k) && r.value == users[k]
    {
      var k := IndexOfId(users, id);
      if k == -1 {
        return Err(NotFound);
      }
      return Ok(users[k]);
    }

    /** `createUser`: checks for missing fields, then the email rules, then
        a duplicate email; on success appends a record whose id is one more
        than the largest id. */
    method CreateUser(name: Option<string>, email: Option<string>) returns (r: Result<User, Error>)
      requires DecimalIds(users)
      modifies this
      ensures !Truthy(name) || !Truthy(email) ==> r == Err(BadRequest(MissingFields))
      ensures Truthy(name) && Truthy(email) && ValidateEmail(email.value).Some? ==>
                r == Err(Unprocessable(ValidateEmail(email.value).value))
      ensures Truthy(name) && Truthy(email) && ValidateEmail(email.value) == None && HasEmail(old(users), email.value) ==>
                r == Err(BadRequest(EmailTaken))
      ensures r.Ok? <==>
                Truthy(name) && Truthy(email) && ValidateEmail(email.value) == None && !HasEmail(old(users), email.value)
      ensures r.Err? ==> users == old(users)
      ensures r.Ok? ==> r.value == User(NatToDecimal(MaxId(old(users)) + 1), name.value, email.value)
      ensures r.Ok? ==> users == old(users) + [r.value]
      ensures r.Ok? ==> !HasId(old(users), r.value.id)
      ensures DecimalIds(users)
      ensures UniqueIds(old(users)) ==> UniqueIds(users)
      ensures UniqueEmails(old(users)) ==> UniqueEmails(users)
    {
      if !Truthy(name) || !Truthy(email) {
        return Err(BadRequest(MissingFields));
      }
      var rule := ValidateEmail(email.value);
      if rule.Some? {
        return Err(Unprocessable(rule.value));
      }
      if FindByEmail(users, email.value).Some? {
        return Err(BadRequest(EmailTaken));
      }
      var maxId := MaxId(users);
      var user := User(NatToDecimal(maxId + 1), name.value, email.value);
      NewIdIsFresh(users);
      users := users + [user];
      return Ok(user);
    }

    /** `deleteUser`: removes the first record with `id`, or NotFound. */
    method DeleteUser(id: string) returns (r: Result<(), Error>)
      modifies this
      ensures r.Err? <==> !HasId(old(users), id)
      ensures r.Err? ==> r.error == NotFound && users == old(users)
      ensures r.Ok? ==> var k := IndexOfId(old(users), id);
                FirstWithId(old(users), id, k) && users == old(users)[..k] + old(users)[k + 1..]
      ensures r.Ok? ==> |users| == |old(users)| - 1
      ensures r.Ok? && UniqueIds(old(users)) ==> !HasId(users, id)
      ensures UniqueIds(old(users)) ==> UniqueIds(users)
      ensures UniqueEmails(old(users)) ==> UniqueEmails(users)
      ensures DecimalIds(old(users)) ==> DecimalIds(users)
    {
      var k := IndexOfId(users, id);
      if k == -1 {
        return Err(NotFound);
      }
      if UniqueIds(users) {
        RemovedIdIsGone(users, id, k);
      }
      users := users[..k] + users[k + 1..];
      return Ok(());
    }

    /** `updateUser`: NotFound for an unknown id; a truthy email in the
        patch is checked against the rules and then against every record,
        the target included; on success the record at the found position
        becomes the merge of the old record and the patch. */
    method UpdateUser(id: string, patch: Patch) returns (r: Result<User, Error>)
      modifies this
      ensures !HasId(old(users), id) ==> r == Err(NotFound)
      ensures HasId(old(users), id) && Truthy(patch.email) && ValidateEmail(patch.email.value).Some? ==>
                r == Err(Unprocessable(ValidateEmail(patch.email.value).value))
      ensures HasId(old(users), id) && Truthy(patch.email) && ValidateEmail(patch.email.value) == None
                && HasEmail(old(users), patch.email.value) ==>
                r == Err(BadRequest(EmailTaken))
      ensures r.Ok? <==>
                HasId(old(users), id) &&
                (Truthy(patch.email) ==> ValidateEmail(patch.email.value) == None && !HasEmail(old(users), patch.email.value))
      ensures r.Err? ==> users == old(users)
      ensures r.Ok? ==> var k := IndexOfId(old(users), id);
                && FirstWithId(old(users), id, k)
                && |users| == |old(users)|
                && (forall j :: 0 <= j < |users| && j != k ==> users[j] == old(users)[j])
                && users[k] == r.value
                && r.value.id == (if patch.id.Some? then patch.id.value else id)
                && r.value.name == (if patch.name.Some? then patch.name.value else old(users)[k].name)
                && r.value.email == (if patch.email.Some? then patch.email.value else old(users)[k].email)
      ensures UniqueEmails(old(users)) && patch.email != Some("") ==> UniqueEmails(users)
      ensures UniqueIds(old(users)) && (patch.id.None? || patch.id == Some(id)) ==> UniqueIds(users)
      ensures DecimalIds(old(users)) && (patch.id.None? || patch.id == Some(id)) ==> DecimalIds(users)
    {
      var k := IndexOfId(users, id);
      if k == -1 {
        return Err(NotFound);
      }
      if Truthy(patch.email) {
        var rule := ValidateEmail(patch.email.value);
        if rule.Some? {
          return Err(Unprocessable(rule.value));
        }
        if FindByEmail(users, patch.email.value).Some? {
          return Err(BadRequest(EmailTaken));
        }
      }
      users := users[k := Merge(users[k], patch)];
      return Ok(users[k]);
    }
  }
}
