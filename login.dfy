/** The login service's handlers over the account table: view by id, list,
    sign-up, sign-in, delete and partial update. The table is the `rows`
    field of an `AccountTable`; each handler returns a `Response` in place
    of a status code and body. */
module Login {
  import opened Models
  import opened Schemas

  /** What a handler answers: a success with or without a body, or the
      HTTP error it raises. */
  datatype Response<T> = Ok(value: T) | Created(value: T) | NoContent | NotFound | Conflict | BadPassword {
    function Status(): int {
      match this
      case Ok(_) => 200
      case Created(_) => 201
      case NoContent => 204
      case NotFound => 404
      case Conflict => 409
      case BadPassword => 400
    }
  }

  // ---------- The partial update, as a function of the table ----------

  /** The value a column holds after the update: the value sent (null
      included) when the field was sent, the stored value otherwise. */
  function MergeField(stored: string, u: FieldUpdate): Option<string> {
    if u.Unset? then Some(stored) else Nullable(u)
  }

  /** The mapped object after the update's fields have been assigned. */
  function Merged(a: Account, p: AccountPartialUpdate): Row {
    Row(MergeField(a.name, p.name), MergeField(a.email, p.email), MergeField(a.password, p.password))
  }

  /** `setattr` applied for each dumped (column, value) pair, in order. */
  function ApplyAll(r: Row, us: seq<(Column, Option<string>)>): Row
    decreases |us|
  {
    if us == [] then r else ApplyAll(SetAttr(r, us[0].0, us[0].1), us[1..])
  }

  lemma {:induction false} ApplyAllConcat(r: Row, xs: seq<(Column, Option<string>)>, ys: seq<(Column, Option<string>)>)
    ensures ApplyAll(r, xs + ys) == ApplyAll(ApplyAll(r, xs), ys)
    decreases |xs|
  {
    if xs == [] {
      assert xs + ys == ys;
    } else {
      assert (xs + ys)[0] == xs[0];
      assert (xs + ys)[1..] == xs[1..] + ys;
      ApplyAllConcat(SetAttr(r, xs[0].0, xs[0].1), xs[1..], ys);
    }
  }

  lemma DumpedApplies(r: Row, c: Column, u: FieldUpdate)
    ensures ApplyAll(r, Dumped(c, u)) == if u.Unset? then r else SetAttr(r, c, Nullable(u))
  {
    if !u.Unset? {
      var us := Dumped(c, u);
      assert us[1..] == [];
    }
  }

  /** Assigning the dumped fields one by one changes exactly the fields
      that were sent, to the value sent, and keeps every other field. */
  lemma SetattrLoopMerges(a: Account, p: AccountPartialUpdate)
    ensures ApplyAll(RowOf(a), ModelDump(p)) == Merged(a, p)
  {
    var dn, de, dp := Dumped(Name, p.name), Dumped(Email, p.email), Dumped(Password, p.password);
    ApplyAllConcat(RowOf(a), dn + de, dp);
    ApplyAllConcat(RowOf(a), dn, de);
    var r1 := ApplyAll(RowOf(a), dn);
    DumpedApplies(RowOf(a), Name, p.name);
    var r2 := ApplyAll(r1, de);
    DumpedApplies(r1, Email, p.email);
    DumpedApplies(r2, Password, p.password);
  }

  /** The table after a partial update of a present `id`: the merged record
      when the commit succeeds, the table as it was when the commit raises an
      integrity error and is rolled back. */
  function PatchOutcome(t: Table, id: int, p: AccountPartialUpdate): Table
    requires id in t
  {
    match Commit(t, id, Merged(t[id], p))
    case Some(t') => t'
    case None => t
  }

  predicate SendsNull(p: AccountPartialUpdate) {
    p.name.SetNull? || p.email.SetNull? || p.password.SetNull?
  }

  /** The value a field ends with when the update is committed. */
  function Sent(stored: string, u: FieldUpdate): string {
    if u.SetValue? then u.value else stored
  }

  /** A partial update never adds or removes a record, never touches another
      record, keeps every field that was not sent, gives every field it does
      change the value that was sent, and preserves the table constraints. */
  lemma PatchOnlySuppliedFields(t: Table, id: int, p: AccountPartialUpdate)
    requires id in t
    ensures PatchOutcome(t, id, p).Keys == t.Keys
    ensures forall k :: k in t && k != id ==> PatchOutcome(t, id, p)[k] == t[k]
    ensures p.name.Unset? ==> PatchOutcome(t, id, p)[id].name == t[id].name
    ensures p.email.Unset? ==> PatchOutcome(t, id, p)[id].email == t[id].email
    ensures p.password.Unset? ==> PatchOutcome(t, id, p)[id].password == t[id].password
    ensures PatchOutcome(t, id, p)[id].name in {t[id].name, Sent(t[id].name, p.name)}
    ensures PatchOutcome(t, id, p)[id].email in {t[id].email, Sent(t[id].email, p.email)}
    ensures PatchOutcome(t, id, p)[id].password in {t[id].password, Sent(t[id].password, p.password)}
    ensures TableInvariant(t) ==> TableInvariant(PatchOutcome(t, id, p))
  {
    var c := Commit(t, id, Merged(t[id], p));
    if c.Some? {
      assert RowOf(c.value[id]) == Merged(t[id], p);
    }
  }

  /** A partial update that would break a constraint is rolled back: an
      explicit null, or a sent email or password that another record holds. */
  lemma PatchRollsBackOnViolation(t: Table, id: int, p: AccountPartialUpdate)
    requires id in t
    ensures SendsNull(p) ==> PatchOutcome(t, id, p) == t
    ensures p.email.SetValue? && EmailTaken(t, id, p.email.value) ==> PatchOutcome(t, id, p) == t
    ensures p.password.SetValue? && PasswordTaken(t, id, p.password.value) ==> PatchOutcome(t, id, p) == t
  {
  }

  /** On a table that meets its constraints, a partial update without nulls
      whose sent email and password no other record holds is committed, with
      exactly the sent values in place of the stored ones. */
  lemma {:induction false} PatchAppliesWhenAllowed(t: Table, id: int, p: AccountPartialUpdate)
    requires id in t && TableInvariant(t)
    requires !SendsNull(p)
    requires !(p.email.SetValue? && EmailTaken(t, id, p.email.value))
    requires !(p.password.SetValue? && PasswordTaken(t, id, p.password.value))
    ensures PatchOutcome(t, id, p) ==
      t[id := Account(Sent(t[id].name, p.name), Sent(t[id].email, p.email), Sent(t[id].password, p.password))]
  {
    var m := Merged(t[id], p);
    assert m.Complete();
  }

  /** An empty update body leaves the table exactly as it was. */
  lemma {:induction false} EmptyPatchIsIdentity(t: Table, id: int)
    requires id in t && TableInvariant(t)
    ensures PatchOutcome(t, id, AccountPartialUpdate(Unset, Unset, Unset)) == t
  {
    PatchAppliesWhenAllowed(t, id, AccountPartialUpdate(Unset, Unset, Unset));
    assert t[id := t[id]] == t;
  }

  // ---------- Queries on a key set ----------

  /** A non-empty set has a member to pick. */
  lemma HasMember(s: set<int>)
    requires s != {}
    ensures exists k :: k in s
  {
    assert (forall k :: k !in s) ==> s == {};
  }

  /** The smallest id of a non-empty set of ids. */
  method Least(s: set<int>) returns (m: int)
    requires s != {}
    ensures m in s && forall k :: k in s ==> m <= k
  {
    HasMember(s);
    m :| m in s;
    var rest, seen := s - {m}, {m};
    while rest != {}
      invariant seen + rest == s && m in seen
      invariant forall k :: k in seen ==> m <= k
      decreases rest
    {
      HasMember(rest);
      var k :| k in rest;
      if k < m {
        m := k;
      }
      rest, seen := rest - {k}, seen + {k};
    }
  }

  /** The ids of a listing. */
  function Ids(r: seq<AccountRead>): set<int> {
    set i | 0 <= i < |r| :: r[i].id
  }

  lemma IdsAppend(r: seq<AccountRead>, x: AccountRead)
    ensures Ids(r + [x]) == Ids(r) + {x.id}
  {
    var r' := r + [x];
    assert r'[|r|].id == x.id;
    forall y | y in Ids(r') ensures y in Ids(r) + {x.id} {
      var i :| 0 <= i < |r'| && r'[i].id == y;
      if i < |r| { assert r[i].id == y; }
    }
    forall y | y in Ids(r) ensures y in Ids(r') {
      var i :| 0 <= i < |r| && r[i].id == y;
      assert r'[i].id == y;
    }
  }

  /** A listing strictly ascending by id lists each of its ids once. */
  lemma {:induction false} AscendingIdsCount(r: seq<AccountRead>)
    requires forall i, j :: 0 <= i < j < |r| ==> r[i].id < r[j].id
    ensures |Ids(r)| == |r|
  {
    if r != [] {
      var front := r[..|r| - 1];
      AscendingIdsCount(front);
      IdsAppend(front, r[|r| - 1]);
      assert front + [r[|r| - 1]] == r;
    }
  }

  /** A listing strictly ascending by id whose ids are the table's keys has
      one entry per stored record. */
  lemma ListingCount(r: seq<AccountRead>, t: Table)
    requires forall i, j :: 0 <= i < j < |r| ==> r[i].id < r[j].id
    requires Ids(r) == t.Keys
    ensures |r| == |t|
  {
    AscendingIdsCount(r);
    assert |t.Keys| == |t|;
  }

  class AccountTable {
    var rows: Table
    const normEmail: string -> Option<string>

    /** The table constraints, SQLite's positive ids, and every stored record
        passing the response shape (so no handler's response fails
        validation). */
    ghost predicate Valid()
      reads this
    {
      && TableInvariant(rows)
      && (forall id :: id in rows ==> id >= 1)
      && (forall id :: id in rows ==> ReadOk(ToRead(id, rows[id]), normEmail))
    }

    constructor (normEmail: string -> Option<string>)
      ensures Valid() && rows == map[] && this.normEmail == normEmail
    {
      rows := map[];
      this.normEmail := normEmail;
    }

    /** GET /api/login/view/{id}: the stored record, or 404. */
    function GetAccountById(id: int): (r: Response<AccountRead>)
      reads this
      ensures r.Ok? <==> id in rows
      ensures r.NotFound? <==> id !in rows
      ensures r.Ok? ==> r.value.id == id && Account(r.value.name, r.value.email, r.value.password) == rows[id]
      ensures r.Ok? && Valid() ==> ReadOk(r.value, normEmail)
    {
      if id in rows then Ok(ToRead(id, rows[id])) else NotFound
    }

    /** GET /api/login/view: every stored record, strictly ascending by id. */
    method ListAccounts() returns (r: seq<AccountRead>)
      ensures forall i, j :: 0 <= i < j < |r| ==> r[i].id < r[j].id
      ensures forall i :: 0 <= i < |r| ==> r[i].id in rows && r[i] == ToRead(r[i].id, rows[r[i].id])
      ensures Ids(r) == rows.Keys
      ensures rows == map[] ==> r == []
    {
      r := [];
      var rest := rows.Keys;
      while rest != {}
        invariant Ids(r) + rest == rows.Keys
        invariant forall i, j :: 0 <= i < j < |r| ==> r[i].id < r[j].id
        invariant forall i :: 0 <= i < |r| ==> r[i].id in rows && r[i] == ToRead(r[i].id, rows[r[i].id])
        invariant forall i, k :: 0 <= i < |r| && k in rest ==> r[i].id < k
        decreases rest
      {
        var m := Least(rest);
        IdsAppend(r, ToRead(m, rows[m]));
        r := r + [ToRead(m, rows[m])];
        rest := rest - {m};
      }
      if r != [] {
        assert r[0].id in Ids(r);
      }
    }

    /** The id SQLite gives an inserted row: one more than the largest id in
        the table, 1 when the table is empty. */
    method NextId() returns (id: int)
      ensures id !in rows
      ensures forall k :: k in rows ==> k < id
      ensures rows == map[] ==> id == 1
      ensures rows != map[] ==> id - 1 in rows
    {
      id := 1;
      var rest, seen := rows.Keys, {};
      while rest != {}
        invariant seen + rest == rows.Keys
        invariant forall k :: k in seen ==> k < id
        invariant seen == {} ==> id == 1
        invariant seen != {} ==> id - 1 in seen
        decreases rest
      {
        HasMember(rest);
        var k :| k in rest;
        if seen == {} || k >= id {
          id := k + 1;
        }
        rest, seen := rest - {k}, seen + {k};
      }
    }

    /** POST /api/login/sign-up: inserts the payload as a new record under a
        fresh id (201), or answers 409 and leaves the table untouched when the
        email or the password is already stored. */
    method SignUp(p: AccountCreate) returns (r: Response<AccountRead>)
      requires Valid() && CreateOk(p, normEmail)
      modifies this
      ensures Valid()
      ensures r.Created? || r.Conflict?
      ensures r.Conflict? <==>
        exists k :: k in old(rows) && (old(rows)[k].email == p.email || old(rows)[k].password == p.password)
      ensures r.Conflict? ==> rows == old(rows)
      ensures r.Created? ==>
        && r.value.id >= 1
        && r.value.id !in old(rows)
        && (old(rows) == map[] ==> r.value.id == 1)
        && rows == old(rows)[r.value.id := Account(p.name, p.email, p.password)]
        && r.value == ToRead(r.value.id, Account(p.name, p.email, p.password))
    {
      var id := NextId();
      var row := Row(Some(p.name), Some(p.email), Some(p.password));
      match Commit(rows, id, row)
      case None =>
        r := Conflict;
      case Some(t) =>
        assert t[id] == Account(p.name, p.email, p.password);
        rows := t;
        r := Created(ToRead(id, rows[id]));
    }

    /** The record whose email is `email`: the lookup behind sign-in. */
    method FindByEmail(email: string) returns (found: Option<int>)
      ensures found.Some? ==> found.value in rows && rows[found.value].email == email
      ensures found.None? ==> forall id :: id in rows ==> rows[id].email != email
    {
      found := None;
      var rest, seen := rows.Keys, {};
      while rest != {} && found.None?
        invariant seen + rest == rows.Keys
        invariant found.Some? ==> found.value in rows && rows[found.value].email == email
        invariant found.None? ==> forall id :: id in seen ==> rows[id].email != email
        decreases rest
      {
        HasMember(rest);
        var k :| k in rest;
        if rows[k].email == email {
          found := Some(k);
        }
        rest, seen := rest - {k}, seen + {k};
      }
    }

    /** POST /api/login/sign-in: 404 for an unknown email, success when the
        stored password equals the one supplied, 400 otherwise. */
    method SignIn(p: AccountLogin) returns (r: Response<string>)
      requires Valid()
      ensures r.NotFound? <==> forall id :: id in rows ==> rows[id].email != p.email
      ensures r.Ok? <==> exists id :: id in rows && rows[id].email == p.email && rows[id].password == p.password
      ensures r.BadPassword? <==> exists id :: id in rows && rows[id].email == p.email && rows[id].password != p.password
      ensures r.Ok? ==> r.value == "login Successful"
    {
      var found := FindByEmail(p.email);
      match found
      case None =>
        r := NotFound;
      case Some(id) =>
        if rows[id].password == p.password {
          r := Ok("login Successful");
        } else {
          r := BadPassword;
        }
    }

    /** DELETE /api/login/delete/{id}: removes the record (204), or 404 when
        there is none. */
    method Delete(id: int) returns (r: Response<()>)
      requires Valid()
      modifies this
      ensures Valid()
      ensures r == if id in old(rows) then NoContent else NotFound
      ensures rows == old(rows) - {id}
    {
      if id !in rows {
        return NotFound;
      }
      rows := rows - {id};
      r := NoContent;
    }

    /** PATCH /api/login/patch/{id}: 404 before any change when the id is
        absent; otherwise assigns the sent fields, commits or rolls back, and
        answers 200 with the record as the table now holds it. */
    method PartialEdit(id: int, p: AccountPartialUpdate) returns (r: Response<AccountRead>)
      requires Valid() && PartialOk(p, normEmail)
      modifies this
      ensures Valid()
      ensures r.NotFound? <==> id !in old(rows)
      ensures id !in old(rows) ==> rows == old(rows)
      ensures id in old(rows) ==> rows == PatchOutcome(old(rows), id, p) && r == Ok(ToRead(id, rows[id]))
    {
      if id !in rows {
        return NotFound;
      }
      var updates := ModelDump(p);
      var row := RowOf(rows[id]);
      var i := 0;
      while i < |updates|
        invariant 0 <= i <= |updates|
        invariant ApplyAll(row, updates[i..]) == ApplyAll(RowOf(rows[id]), updates)
      {
        assert updates[i..][1..] == updates[i + 1..];
        row := SetAttr(row, updates[i].0, updates[i].1);
        i := i + 1;
      }
      assert updates[i..] == [];
      SetattrLoopMerges(rows[id], p);
      PatchOnlySuppliedFields(rows, id, p);
      var committed := Commit(rows, id, row);
      if committed.Some? {
        rows := committed.value;
      }
      // otherwise the integrity error is caught and rolled back, and the
      // record read back is the stored one
      r := Ok(ToRead(id, rows[id]));
    }
  }
}
