/** The request sequences of the login service's test suite, replayed
    against the handlers' contracts alone. Each assertion is a status or
    body the suite checks, or one that follows from the column constraints. */
module Scenarios {
  import opened Models
  import opened Schemas
  import opened Login

  /** A fresh table holding only John's account, as after the suite's
      first sign-up. */
  method TableWithJohn(normEmail: string -> Option<string>) returns (table: AccountTable, created: Response<AccountRead>)
    requires NormalEmail("john@example.com", normEmail)
    ensures created == Created(AccountRead(1, "John", "john@example.com", "password")) && created.Status() == 201
    ensures fresh(table) && table.Valid() && table.normEmail == normEmail
    ensures table.rows == map[1 := Account("John", "john@example.com", "password")]
  {
    table := new AccountTable(normEmail);
    assert SearchLower("password") == Some(0);
    created := table.SignUp(AccountCreate("John", "john@example.com", "password"));
  }

  /** A repeated sign-up is a conflict. */
  method DuplicateSignUp(normEmail: string -> Option<string>)
    requires NormalEmail("john@example.com", normEmail)
  {
    var table, _ := TableWithJohn(normEmail);
    assert SearchLower("password") == Some(0);
    var again := table.SignUp(AccountCreate("John", "john@example.com", "password"));
    assert table.rows[1].email == "john@example.com";
    assert again == Conflict && again.Status() == 409;
  }

  /** Sign-in with the right password, a wrong one, and an unknown email. */
  method SignIns(normEmail: string -> Option<string>)
    requires NormalEmail("john@example.com", normEmail)
  {
    var table, _ := TableWithJohn(normEmail);
    var ok := table.SignIn(AccountLogin("john@example.com", "password"));
    assert table.rows[1].password == "password";
    assert ok == Ok("login Successful") && ok.Status() == 200;

    var wrong := table.SignIn(AccountLogin("john@example.com", "passstesttsxujr"));
    assert wrong == BadPassword && wrong.Status() == 400;

    var unknown := table.SignIn(AccountLogin("john@eample.com", "password"));
    assert unknown == NotFound && unknown.Status() == 404;
  }

  /** Listing an empty table, then viewing and listing John's account. */
  method Views(normEmail: string -> Option<string>)
    requires NormalEmail("john@example.com", normEmail)
  {
    var empty := new AccountTable(normEmail);
    var none := empty.ListAccounts();
    assert none == [];

    var table, _ := TableWithJohn(normEmail);
    assert table.GetAccountById(1) == Ok(AccountRead(1, "John", "john@example.com", "password"));
    assert table.GetAccountById(2) == NotFound;

    var listed := table.ListAccounts();
    ListingCount(listed, table.rows);
    assert listed[0].id in Ids(listed);
    assert listed == [AccountRead(1, "John", "john@example.com", "password")];
  }

  /** A password patch of John's account, and a patch of an absent id. */
  method Patches(normEmail: string -> Option<string>)
    requires NormalEmail("john@example.com", normEmail)
  {
    var table, _ := TableWithJohn(normEmail);
    assert SearchLower("password123") == Some(0);
    var patched := table.PartialEdit(1, AccountPartialUpdate(Unset, Unset, SetValue("password123")));
    assert patched == Ok(AccountRead(1, "John", "john@example.com", "password123"));

    var missing := table.PartialEdit(2, AccountPartialUpdate(Unset, Unset, SetValue("password123")));
    assert missing == NotFound;
  }

  /** Deleting John's account, then deleting it again; and deleting from an
      empty table, which is 404. */
  method Deletes(normEmail: string -> Option<string>)
    requires NormalEmail("john@example.com", normEmail)
  {
    var table, _ := TableWithJohn(normEmail);
    var deleted := table.Delete(1);
    assert deleted == NoContent && deleted.Status() == 204;
    var twice := table.Delete(1);
    assert twice == NotFound && twice.Status() == 404;

    var empty := new AccountTable(normEmail);
    var absent := empty.Delete(1);
    assert absent == NotFound;
  }

  /** The three quirks of the constraints: a new email with a stored password
      is a conflict, and a patch that sends null or another account's email
      is rolled back yet answered with 200 and the stored record. */
  method ConstraintQuirks(normEmail: string -> Option<string>)
    requires NormalEmail("john@example.com", normEmail) && NormalEmail("jill@example.com", normEmail)
  {
    var table, _ := TableWithJohn(normEmail);
    assert SearchLower("password") == Some(0);
    assert SearchLower("secret") == Some(0);

    var sharedPassword := table.SignUp(AccountCreate("Jill", "jill@example.com", "password"));
    assert table.rows[1].password == "password";
    assert sharedPassword == Conflict;

    var jill := table.SignUp(AccountCreate("Jill", "jill@example.com", "secret"));
    assert jill.Created?;
    var jillId := jill.value.id;
    assert jillId != 1;

    var nulled := table.PartialEdit(1, AccountPartialUpdate(SetNull, Unset, Unset));
    assert nulled == Ok(AccountRead(1, "John", "john@example.com", "password"));

    var taken := table.PartialEdit(1, AccountPartialUpdate(Unset, SetValue("jill@example.com"), Unset));
    assert table.rows[jillId].email == "jill@example.com";
    assert taken == Ok(AccountRead(1, "John", "john@example.com", "password"));
  }

  /** The validator normalizes before the table is consulted: a sign-up whose
      email differs from a stored one only in the domain's case is a
      conflict, and signing in with that spelling finds the stored account. */
  method NormalizedEmails(normEmail: string -> Option<string>)
    requires NormalEmail("john@example.com", normEmail)
    requires normEmail("john@EXAMPLE.com") == Some("john@example.com")
  {
    var table, _ := TableWithJohn(normEmail);
    assert SearchLower("other") == Some(0);
    var signUp := ParseCreate(map["name" := JString("John"), "email" := JString("john@EXAMPLE.com"),
                                  "password" := JString("other")], normEmail);
    assert signUp == Some(AccountCreate("John", "john@example.com", "other"));
    var again := table.SignUp(signUp.value);
    assert table.rows[1].email == "john@example.com";
    assert again == Conflict;

    assert SearchLower("password") == Some(0);
    var signIn := ParseLogin(map["email" := JString("john@EXAMPLE.com"), "password" := JString("password")], normEmail);
    assert signIn == Some(AccountLogin("john@example.com", "password"));
    var ok := table.SignIn(signIn.value);
    assert table.rows[1].password == "password";
    assert ok == Ok("login Successful");
  }
}
