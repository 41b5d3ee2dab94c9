/** The service's test cases, each run on a fresh, cleared service; each
    method's postcondition is that test's assertion, proved from the
    service's contracts alone. */
module ServiceTests {
  import opened Users
  import opened Report
  import opened UserDirectory

  /** A fresh service, emptied as before every test. */
  method FreshService() returns (s: UserService)
    ensures fresh(s) && s.Valid() && s.users == []
  {
    s := new UserService();
    s.ClearDB();
  }

  method CreatesUserWithValidData() returns (created: Result<User>)
    ensures created.Success?
    ensures created.value.nome == "John Doe" && created.value.email == "john@example.com"
    ensures created.value.idade == 25 && StatusText(created.value.status) == "ativo"
  {
    var s := FreshService();
    created := s.CreateUser("John Doe", "john@example.com", 25);
  }

  method RejectsUserUnder18() returns (created: Result<User>, count: nat)
    ensures created == Failure("O usuário deve ser maior de idade.")
    ensures count == 0
  {
    var s := FreshService();
    created := s.CreateUser("Young User", "young@example.com", 17);
    count := |s.users|;
  }

  method RetrievesUserById() returns (created: Result<User>, retrieved: Option<User>)
    ensures created.Success? && retrieved == Some(created.value)
  {
    var s := FreshService();
    created := s.CreateUser("Jane Doe", "jane@example.com", 30);
    retrieved := s.GetUserById(created.value.id);
  }

  method DeactivatesNonAdminUser() returns (result: bool, after: Option<User>)
    ensures result
    ensures after.Some? && StatusText(after.value.status) == "inativo"
  {
    var s := FreshService();
    var regular := s.CreateUser("Regular", "regular@example.com", 30);
    result := s.DeactivateUser(regular.value.id);
    after := s.GetUserById(regular.value.id);
  }

  method DoesNotDeactivateAdminUser() returns (result: bool, after: Option<User>)
    ensures !result
    ensures after.Some? && StatusText(after.value.status) == "ativo"
  {
    var s := FreshService();
    var admin := s.CreateUser("Admin", "admin@example.com", 40, true);
    result := s.DeactivateUser(admin.value.id);
    after := s.GetUserById(admin.value.id);
  }

  method ReportShowsUser() returns (created: Result<User>, report: string)
    ensures created.Success?
    ensures |report| >= |ReportHeader| && report[..|ReportHeader|] == "--- Relatório de Usuários ---"
    ensures MatchesInOrder(report, "ID: " + created.value.id, "Nome: Alice", "Status: ativo")
  {
    var s := FreshService();
    created := s.CreateUser("Alice", "alice@example.com", 28);
    report := s.GenerateUserReport();
    var u := created.value;
    assert s.users == [u];
    assert MatchesInOrder(report, "ID: " + u.id, "Nome: " + u.nome, "Status: " + StatusText(u.status));
    AliceFields(u);
  }

  lemma AliceFields(u: User)
    requires u.nome == "Alice" && u.status == Ativo
    ensures "Nome: " + u.nome == "Nome: Alice" && "Status: " + StatusText(u.status) == "Status: ativo"
  {
  }

  method ReportWhenEmpty() returns (report: string)
    ensures report == "--- Relatório de Usuários ---\nNenhum usuário cadastrado."
  {
    var s := FreshService();
    report := s.GenerateUserReport();
  }
}
