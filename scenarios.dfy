/** Callers of the store, showing what its contracts let a client conclude
    about sequences of requests. */
module Scenarios {
  import opened Wrappers
  import opened Decimal
  import opened Email
  import opened UsersController

  /** Fetching a just-created user by the id it was given returns that user. */
  method CreateThenGet(store: Store, name: Option<string>, email: Option<string>)
    returns (created: Result<User, Error>, fetched: Option<Result<User, Error>>)
    requires DecimalIds(store.users)
    modifies store
    ensures created.Ok? <==> fetched.Some?
    ensures created.Ok? ==> fetched.value == created
  {
    ghost var before := store.users;
    created := store.CreateUser(name, email);
    fetched := None;
    if created.Ok? {
      var id := created.value.id;
      assert forall j :: 0 <= j < |before| ==> store.users[j] == before[j];
      assert forall j :: 0 <= j < |before| ==> store.users[j].id != id;
      assert store.users[|before|].id == id;
      var got := store.GetUser(id);
      fetched := Some(got);
    }
  }

  /** Once a user is deleted from a store with unique ids, fetching it
      gives NotFound. */
  method DeleteThenGet(store: Store, id: string)
    returns (deleted: Result<(), Error>, fetched: Result<User, Error>)
    requires UniqueIds(store.users)
    modifies store
    ensures deleted.Ok? <==> HasId(old(store.users), id)
    ensures fetched == Err(NotFound)
  {
    deleted := store.DeleteUser(id);
    fetched := store.GetUser(id);
  }

  /** Updating a user with an email some record already has is refused
      and changes nothing, also when that record is the target itself. */
  method UpdateToTakenEmail(store: Store, id: string, holder: nat)
    returns (r: Result<User, Error>)
    requires HasId(store.users, id)
    requires holder < |store.users|
    requires store.users[holder].email != "" && ValidateEmail(store.users[holder].email) == None
    modifies store
    ensures r == Err(BadRequest(EmailTaken))
    ensures store.users == old(store.users)
  {
    r := store.UpdateUser(id, Patch(None, None, Some(store.users[holder].email)));
  }

  /** Alice's address passes the email check. */
  lemma AliceEmailIsValid()
    ensures ValidateEmail("alice@example.com") == None
  {
    assert "alice@example.com" == "alice" + "@" + "example.com";
    assert ' ' !in "alice" && ' ' !in "example.com" && '@' !in "example.com" && '.' in "example.com";
    ValidateSplit("alice", "example.com");
  }

  /** No seeded user has Alice's address. */
  lemma AliceEmailIsNew()
    ensures !HasEmail(Seed(), "alice@example.com")
  {
    forall i | 0 <= i < |Seed()|
      ensures Seed()[i].email != "alice@example.com"
    {
      assert Seed()[i].email[0] != 'a';
    }
  }

  /** Creating a user with a new, valid email in a store whose largest id
      is 8 (the seed is one, by SeedNextId) gives the user id "9" and adds
      one record at the end; Alice is such a user (AliceEmailIsValid,
      AliceEmailIsNew). */
  method CreateAfterEight(store: Store, name: string, email: string) returns (r: Result<User, Error>)
    requires DecimalIds(store.users) && MaxId(store.users) == 8
    requires name != "" && email != "" && ValidateEmail(email) == None && !HasEmail(store.users, email)
    modifies store
    ensures r == Ok(User("9", name, email))
    ensures store.users == old(store.users) + [r.value]
  {
    assert NatToDecimal(9) == "9";
    r := store.CreateUser(Some(name), Some(email));
  }

  /** A present but empty email skips both email checks and is still
      written, so two such updates leave two records sharing the email "". */
  method EmptyEmailUpdatesCollide() returns (store: Store)
    ensures !UniqueEmails(store.users)
  {
    store := new Store([User("1", "Ann", "ann@example.com"), User("2", "Bob", "bob@example.com")]);
    assert UniqueEmails(store.users);
    assert store.users[0].id == "1" && store.users[1].id == "2";
    var first := store.UpdateUser("1", Patch(None, None, Some("")));
    var second := store.UpdateUser("2", Patch(None, None, Some("")));
    assert store.users[0].email == "" && store.users[1].email == "";
  }

  /** The update merges an id present in the body, so a record can take
      another record's id. */
  method IdInPatchCollides() returns (store: Store)
    ensures !UniqueIds(store.users)
  {
    store := new Store([User("1", "Ann", "ann@example.com"), User("2", "Bob", "bob@example.com")]);
    assert store.users[1].id == "2";
    var r := store.UpdateUser("2", Patch(Some("1"), None, None));
    assert store.users[0].id == "1" && store.users[1].id == "1";
  }
}
