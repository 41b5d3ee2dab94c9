/** The user record kept by the user service, the identifiers it hands out,
    and lookup by identifier over the service's list of users. */
module Users {

  /** A user's status: every user starts `ativo`; deactivation makes a
      non-admin user `inativo`. */
  datatype Status = Ativo | Inativo

  /** One stored user, with the service's own field names. */
  datatype User = User(id: string, nome: string, email: string, idade: int, isAdmin: bool, status: Status)

  datatype Option<T> = None | Some(value: T)

  /** Outcome of an operation that either yields a value or fails with a message. */
  datatype Result<T> = Success(value: T) | Failure(message: string)

  /** Users younger than this cannot be created. */
  const LegalAge: int := 18

  /** The message of the error raised for an under-age user. */
  const UnderageMessage: string := "O usuário deve ser maior de idade."

  /** The text the report prints for a status. */
  function StatusText(s: Status): (t: string)
    ensures t == "ativo" <==> s == Ativo
    ensures t == "inativo" <==> s == Inativo
  {
    match s
    case Ativo => "ativo"
    case Inativo => "inativo"
  }

  // ---------------------------------------------------------------------
  // Identifiers: the decimal numeral of a counter

  predicate IsDigit(c: char) {
    '0' <= c <= '9'
  }

  predicate AllDigits(s: string) {
    forall i :: 0 <= i < |s| ==> IsDigit(s[i])
  }

  function DigitChar(d: nat): (c: char)
    requires d < 10
    ensures IsDigit(c) && c as int - '0' as int == d
  {
    (d + '0' as int) as char
  }

  /** The decimal numeral of `n`, most significant digit first. */
  function DecimalString(n: nat): (s: string)
    ensures |s| > 0 && AllDigits(s)
    decreases n
  {
    if n < 10 then [DigitChar(n)] else DecimalString(n / 10) + [DigitChar(n % 10)]
  }

  /** The number a string of decimal digits denotes. */
  function DigitsValue(s: string): nat
    requires AllDigits(s)
  {
    if s == [] then 0 else DigitsValue(s[..|s| - 1]) * 10 + (s[|s| - 1] as int - '0' as int)
  }

  /** Reading back a numeral gives the number it was made from. */
  lemma {:induction false} DecimalRoundTrip(n: nat)
    ensures DigitsValue(DecimalString(n)) == n
  {
    if n >= 10 {
      DecimalRoundTrip(n / 10);
      var s := DecimalString(n);
      assert s[..|s| - 1] == DecimalString(n / 10);
    }
  }

  /** Distinct counter values give distinct identifiers. */
  lemma DecimalStringInjective(m: nat, n: nat)
    ensures DecimalString(m) == DecimalString(n) <==> m == n
  {
    DecimalRoundTrip(m);
    DecimalRoundTrip(n);
  }

  // ---------------------------------------------------------------------
  // The list of users and its invariants

  function IdsOf(users: seq<User>): set<string> {
    set i | 0 <= i < |users| :: users[i].id
  }

  predicate UniqueIds(users: seq<User>) {
    forall i, j :: 0 <= i < j < |users| ==> users[i].id != users[j].id
  }

  /** What holds of the users a service stores while its counter is `nextId`:
      every user is of legal age, no admin is inactive, every id is a numeral
      below the counter, and no two users share an id. */
  predicate WellFormed(users: seq<User>, nextId: nat) {
    && (forall i :: 0 <= i < |users| ==>
          && users[i].idade >= LegalAge
          && (users[i].isAdmin ==> users[i].status == Ativo)
          && AllDigits(users[i].id)
          && DigitsValue(users[i].id) < nextId)
    && UniqueIds(users)
  }

  /** The first stored user whose id is `id`, if any. */
  function Lookup(users: seq<User>, id: string): (r: Option<User>)
    ensures r.None? <==> id !in IdsOf(users)
    ensures r.Some? ==> r.value in users && r.value.id == id
  {
    if users == [] then None
    else if users[0].id == id then Some(users[0])
    else
      var r := Lookup(users[1..], id);
      assert IdsOf(users) == {users[0].id} + IdsOf(users[1..]) by {
        forall x | x in IdsOf(users) ensures x in {users[0].id} + IdsOf(users[1..]) {
          var i :| 0 <= i < |users| && users[i].id == x;
          if i > 0 { assert users[1..][i - 1].id == x; }
        }
      }
      r
  }

  /** With unique ids, looking up a stored user's id finds exactly that user. */
  lemma LookupFindsMember(users: seq<User>, k: int)
    requires UniqueIds(users)
    requires 0 <= k < |users|
    ensures Lookup(users, users[k].id) == Some(users[k])
  {
  }

  /** Appending a user under a fresh numeral keeps the list well formed
      and makes that user retrievable by its id. */
  lemma AppendFresh(users: seq<User>, nextId: nat, u: User)
    requires WellFormed(users, nextId)
    requires u.id == DecimalString(nextId) && u.idade >= LegalAge && u.status == Ativo
    ensures u.id !in IdsOf(users)
    ensures WellFormed(users + [u], nextId + 1)
    ensures Lookup(users + [u], u.id) == Some(u)
  {
    DecimalRoundTrip(nextId);
    forall i | 0 <= i < |users| ensures users[i].id != u.id {
      assert DigitsValue(users[i].id) < nextId;
    }
    var us := users + [u];
    assert us[|users|] == u;
    LookupFindsMember(us, |users|);
  }

  /** Setting one user's status to inactive: the list stays well formed when
      that user is not an admin, and the lookup of its id sees the new status. */
  lemma DeactivateAt(users: seq<User>, nextId: nat, k: int)
    requires WellFormed(users, nextId)
    requires 0 <= k < |users| && !users[k].isAdmin
    ensures WellFormed(users[k := users[k].(status := Inativo)], nextId)
    ensures Lookup(users[k := users[k].(status := Inativo)], users[k].id) == Some(users[k].(status := Inativo))
  {
    var us := users[k := users[k].(status := Inativo)];
    assert forall i :: 0 <= i < |us| ==> us[i].id == users[i].id;
    LookupFindsMember(us, k);
  }
}
