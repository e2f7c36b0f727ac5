/** The controller's home-made email check: six tests applied in a fixed
    order, the first one that fails being reported. It is a heuristic, not
    the address grammar of section 3.4.1 of RFC 5322. */
module Email {
  import opened Wrappers
  import opened JsString

  /** The six checks, in the order they are applied. */
  datatype Rule =
    | MissingAt            // "Email must contain @"
    | ContainsSpace        // "Email must not contain spaces"
    | MultipleAt           // "Email must contain only one @"
    | DomainWithoutDot     // "Email domain must contain a dot"
    | DomainEndsWithDot    // "Email domain cannot end with a dot"
    | DomainStartsWithDot  // "Email domain cannot start with a dot"

  /** `validateEmail`: None when the email passes, otherwise the first rule
      it breaks (the source throws an UnprocessableEntityException for it). */
  function ValidateEmail(email: string): (r: Option<Rule>)
  {
    if '@' !in email then Some(MissingAt)
    else if ' ' in email then Some(ContainsSpace)
    else if IndexOf(email, '@') != LastIndexOf(email, '@') then Some(MultipleAt)
    else
      var domain := email[IndexOf(email, '@') + 1..];
      if '.' !in domain then Some(DomainWithoutDot)
      else if EndsWith(domain, '.') then Some(DomainEndsWithDot)
      else if StartsWith(domain, '.') then Some(DomainStartsWithDot)
      else None
  }

  /** A string without '@' fails the first check. */
  lemma RejectsWithoutAt(email: string)
    requires '@' !in email
    ensures ValidateEmail(email) == Some(MissingAt)
  {
  }

  /** Any string with an '@' splits at its first '@'. */
  lemma SplitAtFirstAt(email: string) returns (local: string, domain: string)
    requires '@' in email
    ensures email == local + "@" + domain && '@' !in local
  {
    var k := IndexOf(email, '@');
    local, domain := email[..k], email[k + 1..];
    assert email == local + "@" + domain;
  }

  /** The verdict on `local@domain`, split at its first '@', stated on the two
      parts and without string searches: the first of checks 2 to 6 that
      fails is reported, and the email passes when none does. */
  lemma ValidateSplit(local: string, domain: string)
    requires '@' !in local
    ensures ValidateEmail(local + "@" + domain) ==
      if ' ' in local || ' ' in domain then Some(ContainsSpace)
      else if '@' in domain then Some(MultipleAt)
      else if '.' !in domain then Some(DomainWithoutDot)
      else if domain[|domain| - 1] == '.' then Some(DomainEndsWithDot)
      else if domain[0] == '.' then Some(DomainStartsWithDot)
      else None
  {
    var email := local + "@" + domain;
    IndexOfSplit(local, '@', domain);
    LastIndexOfSplit(local, '@', domain);
    assert email[|local| + 1..] == domain;
    assert ' ' in email <==> ' ' in local || ' ' in domain by {
      assert forall j :: 0 <= j < |local| ==> email[j] == local[j];
      assert forall j :: 0 <= j < |domain| ==> email[|local| + 1 + j] == domain[j];
    }
  }

  /** The number of '@' characters in a string. */
  function AtCount(s: string): nat {
    multiset(s)['@']
  }

  /** The accepted emails are exactly those with one '@', no space, and a
      domain (the part after the '@') that holds a dot but neither starts
      nor ends with one. */
  lemma AcceptsExactly(local: string, domain: string)
    requires '@' !in local
    ensures ValidateEmail(local + "@" + domain) == None <==>
      && AtCount(local + "@" + domain) == 1
      && ' ' !in local + "@" + domain
      && '.' in domain && domain[0] != '.' && domain[|domain| - 1] != '.'
  {
    ValidateSplit(local, domain);
    var email := local + "@" + domain;
    assert multiset(email) == multiset(local) + multiset{'@'} + multiset(domain);
    assert AtCount(email) == 1 + multiset(domain)['@'];
    assert ' ' in email <==> ' ' in local || ' ' in domain by {
      assert forall j :: 0 <= j < |local| ==> email[j] == local[j];
      assert forall j :: 0 <= j < |domain| ==> email[|local| + 1 + j] == domain[j];
    }
  }

  /** Every accepted email has exactly one '@' and no space. */
  lemma AcceptedHasOneAt(email: string)
    requires ValidateEmail(email) == None
    ensures AtCount(email) == 1 && ' ' !in email
  {
    var local, domain := SplitAtFirstAt(email);
    AcceptsExactly(local, domain);
  }

  /** Example verdicts, one per rule and one accepted address. */
  lemma ExampleMissingAt()
    ensures ValidateEmail("no-at-sign.com") == Some(MissingAt)
  {
    assert forall j :: 0 <= j < |"no-at-sign.com"| ==> "no-at-sign.com"[j] != '@';
  }

  lemma ExampleContainsSpace()
    ensures ValidateEmail("has space@example.com") == Some(ContainsSpace)
  {
  }

  lemma ExampleMultipleAt()
    ensures ValidateEmail("a@b@example.com") == Some(MultipleAt)
  {
    assert "a@b@example.com" == "a" + "@" + "b@example.com";
    ValidateSplit("a", "b@example.com");
  }

  lemma ExampleDomainWithoutDot()
    ensures ValidateEmail("user@nodot") == Some(DomainWithoutDot)
  {
    assert "user@nodot" == "user" + "@" + "nodot";
    assert ' ' !in "user" && ' ' !in "nodot" && '@' !in "nodot" && '.' !in "nodot";
    ValidateSplit("user", "nodot");
  }

  lemma ExampleDomainEndsWithDot()
    ensures ValidateEmail("user@example.") == Some(DomainEndsWithDot)
  {
    assert "user@example." == "user" + "@" + "example.";
    assert ' ' !in "user" && ' ' !in "example." && '@' !in "example." && '.' in "example.";
    ValidateSplit("user", "example.");
  }

  lemma ExampleDomainStartsWithDot()
    ensures ValidateEmail("user@.example.com") == Some(DomainStartsWithDot)
  {
    assert "user@.example.com" == "user" + "@" + ".example.com";
    assert ' ' !in "user" && ' ' !in ".example.com" && '@' !in ".example.com" && '.' in ".example.com";
    ValidateSplit("user", ".example.com");
  }

  lemma ExampleAccepted()
    ensures ValidateEmail("user@example.com") == None
  {
    assert "user@example.com" == "user" + "@" + "example.com";
    assert ' ' !in "user" && ' ' !in "example.com" && '@' !in "example.com" && '.' in "example.com";
    ValidateSplit("user", "example.com");
  }
}
