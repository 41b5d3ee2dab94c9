/** The in-memory user service: a mutable list of users, a legal-age gate on
    creation, lookup by id, deactivation with an admin exemption, a text
    report, and a reset that empties the list. */
module UserDirectory {
  import opened Users
  import opened Report

  class UserService {
    /** The stored users, in insertion order. */
    var users: seq<User>
    /** The counter whose decimal numeral becomes the next user's id. */
    var nextId: nat

    ghost predicate Valid()
      reads this
    {
      WellFormed(users, nextId)
    }

    constructor ()
      ensures Valid() && users == [] && nextId == 0
    {
      users := [];
      nextId := 0;
    }

    /** Empties the service. The id counter is kept, so ids are never reused. */
    method ClearDB()
      requires Valid()
      modifies this
      ensures Valid() && users == [] && nextId == old(nextId)
    {
      users := [];
    }

    /** Creates and stores an active user, or fails with the legal-age
        message, storing nothing, when `idade` is under 18. */
    method CreateUser(nome: string, email: string, idade: int, isAdmin: bool := false) returns (r: Result<User>)
      requires Valid()
      modifies this
      ensures Valid()
      ensures idade < LegalAge ==> r == Failure(UnderageMessage) && users == old(users) && nextId == old(nextId)
      ensures idade >= LegalAge ==>
        && r.Success?
        && r.value == User(r.value.id, nome, email, idade, isAdmin, Ativo)
        && r.value.id == DecimalString(old(nextId))
        && nextId == old(nextId) + 1
        && r.value.id !in IdsOf(old(users))
        && users == old(users) + [r.value]
        && Lookup(users, r.value.id) == Some(r.value)
    {
      if idade < LegalAge {
        return Failure(UnderageMessage);
      }
      var u := User(DecimalString(nextId), nome, email, idade, isAdmin, Ativo);
      AppendFresh(users, nextId, u);
      users := users + [u];
      nextId := nextId + 1;
      r := Success(u);
    }

    /** The position of the user with id `id`, or -1 when there is none. */
    method IndexOf(id: string) returns (k: int)
      ensures k == -1 <==> id !in IdsOf(users)
      ensures k != -1 ==> 0 <= k < |users| && users[k].id == id && Lookup(users, id) == Some(users[k])
    {
      k := 0;
      while k < |users|
        invariant 0 <= k <= |users|
        invariant Lookup(users, id) == Lookup(users[k..], id)
      {
        if users[k].id == id {
          return;
        }
        assert users[k..][1..] == users[k + 1..];
        k := k + 1;
      }
      k := -1;
    }

    /** The stored user with id `id`, or nothing when no user has it. */
    method GetUserById(id: string) returns (r: Option<User>)
      ensures r.None? <==> id !in IdsOf(users)
      ensures r.Some? ==> r.value in users && r.value.id == id
      ensures r == Lookup(users, id)
    {
      var k := IndexOf(id);
      r := if k == -1 then None else Some(users[k]);
    }

    /** Makes the user with id `id` inactive and answers true, unless that
        user is an admin: then nothing changes and the answer is false. */
    method DeactivateUser(id: string) returns (ok: bool)
      requires Valid()
      requires id in IdsOf(users)
      modifies this
      ensures Valid() && nextId == old(nextId)
      ensures ok <==> !Lookup(old(users), id).value.isAdmin
      ensures |users| == |old(users)|
      ensures forall i :: 0 <= i < |users| ==>
        users[i] == if ok && old(users)[i].id == id then old(users)[i].(status := Inativo) else old(users)[i]
      ensures Lookup(users, id).Some?
      ensures Lookup(users, id).value.status == if ok then Inativo else Ativo
    {
      var k := IndexOf(id);
      if users[k].isAdmin {
        ok := false;
      } else {
        DeactivateAt(users, nextId, k);
        users := users[k := users[k].(status := Inativo)];
        ok := true;
      }
    }

    /** The report of the stored users: it begins with the header; it is the
        empty-state text exactly when there are no users; and it shows each
        user's id, then name, then status, on one line. */
    function GenerateUserReport(): (r: string)
      reads this
      ensures |r| >= |ReportHeader| && r[..|ReportHeader|] == ReportHeader
      ensures r == EmptyReport <==> users == []
      ensures forall k :: 0 <= k < |users| ==>
        MatchesInOrder(r, "ID: " + users[k].id, "Nome: " + users[k].nome, "Status: " + StatusText(users[k].status))
    {
      ReportStartsWithHeader(users);
      ReportEmptyExactly(users);
      assert forall k :: 0 <= k < |users| ==>
        MatchesInOrder(ReportText(users), "ID: " + users[k].id, "Nome: " + users[k].nome, "Status: " + StatusText(users[k].status))
      by {
        forall k | 0 <= k < |users|
          ensures MatchesInOrder(ReportText(users), "ID: " + users[k].id, "Nome: " + users[k].nome,
                                 "Status: " + StatusText(users[k].status))
        {
          ReportListsUser(users, k);
        }
      }
      ReportText(users)
    }
  }
}
