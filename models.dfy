/** The `users` table of the login service: its record type, the ORM's view
    of a row (whose attributes may be set to null before a flush), and the
    column constraints the database enforces at commit time. */
module Models {

  datatype Option<T> = None | Some(value: T)

  /** A stored account; the id is the key of the table, not part of the record. */
  datatype Account = Account(name: string, email: string, password: string)

  /** The columns a partial update may assign. */
  datatype Column = Name | Email | Password

  /** A mapped object as the ORM holds it before commit: any attribute may
      have been assigned null (None). */
  datatype Row = Row(name: Option<string>, email: Option<string>, password: Option<string>) {

    /** No NOT NULL column holds null. */
    predicate Complete() {
      name.Some? && email.Some? && password.Some?
    }

    function ToAccount(): (a: Account)
      requires Complete()
      ensures RowOf(a) == this
    {
      Account(name.value, email.value, password.value)
    }
  }

  function RowOf(a: Account): (r: Row)
    ensures r.Complete()
  {
    Row(Some(a.name), Some(a.email), Some(a.password))
  }

  /** `setattr(row, column, value)`: assigns one attribute of the mapped object. */
  function SetAttr(r: Row, c: Column, v: Option<string>): (r': Row)
    ensures c == Name ==> r'.name == v && r'.email == r.email && r'.password == r.password
    ensures c == Email ==> r'.email == v && r'.name == r.name && r'.password == r.password
    ensures c == Password ==> r'.password == v && r'.name == r.name && r'.email == r.email
  {
    match c
    case Name => r.(name := v)
    case Email => r.(email := v)
    case Password => r.(password := v)
  }

  /** The table, keyed by the integer primary key; keys of a map are unique,
      which is the primary-key constraint. */
  type Table = map<int, Account>

  /** `email` is declared `unique=True`. */
  predicate UniqueEmails(t: Table) {
    forall i, j :: i in t && j in t && i != j ==> t[i].email != t[j].email
  }

  /** `password` is declared `unique=True` as well. */
  predicate UniquePasswords(t: Table) {
    forall i, j :: i in t && j in t && i != j ==> t[i].password != t[j].password
  }

  /** The constraints of the `users` table that a stored state always meets.
      NOT NULL holds by construction: a stored `Account` has no null field. */
  predicate TableInvariant(t: Table) {
    UniqueEmails(t) && UniquePasswords(t)
  }

  /** Some record other than `id` already holds `email`. */
  predicate EmailTaken(t: Table, id: int, email: string) {
    exists k :: k in t && k != id && t[k].email == email
  }

  /** Some record other than `id` already holds `password`. */
  predicate PasswordTaken(t: Table, id: int, password: string) {
    exists k :: k in t && k != id && t[k].password == password
  }

  /** Storing `email` and `password` under `id` would repeat a unique value. */
  predicate Clash(t: Table, id: int, email: string, password: string) {
    EmailTaken(t, id, email) || PasswordTaken(t, id, password)
  }

  /** Committing `row` under key `id` (an INSERT when `id` is fresh, an UPDATE
      otherwise). The database raises an integrity error, here None, exactly
      when a NOT NULL column would hold null or a unique column would repeat
      a value held by another record. */
  function Commit(t: Table, id: int, row: Row): (r: Option<Table>)
    ensures r.Some? <==>
      row.Complete() && !Clash(t, id, row.email.value, row.password.value)
    ensures !row.Complete() ==> r.None?
    ensures r.Some? ==> id in r.value && RowOf(r.value[id]) == row
    ensures r.Some? ==> r.value.Keys == t.Keys + {id}
    ensures r.Some? ==> forall k :: k in t && k != id ==> r.value[k] == t[k]
    ensures r.Some? && TableInvariant(t) ==> TableInvariant(r.value)
  {
    if row.Complete() && !Clash(t, id, row.email.value, row.password.value) then
      Some(t[id := row.ToAccount()])
    else
      None
  }
}
