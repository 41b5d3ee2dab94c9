/** The text report of the user service: a fixed header line, then one line
    per stored user in insertion order, or a fixed line when there are none. */
module Report {
  import opened Users

  const ReportHeader: string := "--- Relatório de Usuários ---"

  /** The whole report of a service that holds no users: the header, a line
      break, and the line saying there are no users. */
  const EmptyReport: string := "--- Relatório de Usuários ---\nNenhum usuário cadastrado."

  /** The line that describes one user. */
  function ReportLine(u: User): string {
    "ID: " + u.id + " Nome: " + u.nome + " Status: " + StatusText(u.status)
  }

  /** Each user's line, each preceded by a line break. */
  function UserLines(users: seq<User>): string {
    if users == [] then "" else "\n" + ReportLine(users[0]) + UserLines(users[1..])
  }

  function ReportText(users: seq<User>): string {
    if users == [] then EmptyReport else ReportHeader + UserLines(users)
  }

  // ---------------------------------------------------------------------
  // What a pattern `a.*b.*c` matching a text means

  ghost predicate OccursAt(s: string, pat: string, p: int) {
    0 <= p && p + |pat| <= |s| && s[p..p + |pat|] == pat
  }

  /** The characters that a regular expression's `.` does not match. */
  predicate IsLineTerminator(c: char) {
    c == '\n' || c == '\r' || c == '\U{2028}' || c == '\U{2029}'
  }

  predicate NoLineTerminator(s: string) {
    forall i :: 0 <= i < |s| ==> !IsLineTerminator(s[i])
  }

  /** `s` contains `a`, later `b`, later `c`, with no line break between them. */
  ghost predicate MatchesInOrder(s: string, a: string, b: string, c: string) {
    exists p, q, t ::
      && OccursAt(s, a, p) && OccursAt(s, b, q) && OccursAt(s, c, t)
      && p + |a| <= q && q + |b| <= t
      && NoLineTerminator(s[p + |a|..q]) && NoLineTerminator(s[q + |b|..t])
  }

  /** A text that holds an occurrence also holds it after anything is put around it. */
  lemma OccursInContext(x: string, s: string, y: string, pat: string, p: int)
    requires OccursAt(s, pat, p)
    ensures OccursAt(x + s + y, pat, |x| + p)
  {
  }

  /** Any slice of an occurrence is the same slice of the pattern. */
  lemma SliceOfOccurrence(s: string, pat: string, p: int, i: int, j: int)
    requires OccursAt(s, pat, p)
    requires 0 <= i <= j <= |pat|
    ensures s[p + i..p + j] == pat[i..j]
  {
    forall m | i <= m < j ensures s[p + m] == pat[m] {
      assert s[p..p + |pat|][m] == pat[m];
    }
  }

  /** Every user's line occurs in the lines of the report. */
  lemma {:induction false} LineInUserLines(users: seq<User>, k: int)
    requires 0 <= k < |users|
    ensures exists p :: OccursAt(UserLines(users), ReportLine(users[k]), p)
  {
    var rest := UserLines(users[1..]);
    if k == 0 {
      OccursInContext("\n", ReportLine(users[0]), rest, ReportLine(users[0]), 0);
      assert OccursAt(UserLines(users), ReportLine(users[0]), 1);
    } else {
      assert users[1..][k - 1] == users[k];
      LineInUserLines(users[1..], k - 1);
      var p :| OccursAt(rest, ReportLine(users[k]), p);
      OccursInContext("\n" + ReportLine(users[0]), rest, "", ReportLine(users[k]), p);
      assert "\n" + ReportLine(users[0]) + rest + "" == UserLines(users);
    }
  }

  /** Wherever `a b c` (single spaces between) occurs, `a`, `b` and `c`
      follow one another with no line break between them. */
  lemma SeparatedMatches(s: string, a: string, b: string, c: string, p: int)
    requires OccursAt(s, a + " " + b + " " + c, p)
    ensures MatchesInOrder(s, a, b, c)
  {
    var line := a + " " + b + " " + c;
    var q := p + |a| + 1;
    var t := q + |b| + 1;
    SliceOfOccurrence(s, line, p, 0, |a|);
    assert line[0..|a|] == a;
    assert OccursAt(s, a, p);
    SliceOfOccurrence(s, line, p, |a|, |a| + 1);
    assert line[|a|..|a| + 1] == [' '];
    SliceOfOccurrence(s, line, p, |a| + 1, |a| + 1 + |b|);
    assert line[|a| + 1..|a| + 1 + |b|] == b;
    assert OccursAt(s, b, q);
    SliceOfOccurrence(s, line, p, |a| + 1 + |b|, |a| + 2 + |b|);
    assert line[|a| + 1 + |b|..|a| + 2 + |b|] == [' '];
    SliceOfOccurrence(s, line, p, |a| + 2 + |b|, |line|);
    assert line[|a| + 2 + |b|..|line|] == c;
    assert OccursAt(s, c, t);
    assert NoLineTerminator(s[p + |a|..q]) && NoLineTerminator(s[q + |b|..t]);
  }

  /** Wherever a user's line occurs, its id, then its name, then its status
      follow one another on that one line. */
  lemma LineMatches(s: string, u: User, p: int)
    requires OccursAt(s, ReportLine(u), p)
    ensures MatchesInOrder(s, "ID: " + u.id, "Nome: " + u.nome, "Status: " + StatusText(u.status))
  {
    assert ReportLine(u) == ("ID: " + u.id) + " " + ("Nome: " + u.nome) + " " + ("Status: " + StatusText(u.status));
    SeparatedMatches(s, "ID: " + u.id, "Nome: " + u.nome, "Status: " + StatusText(u.status), p);
  }

  /** The report holds every user's id, name and status, in that order on one line. */
  lemma ReportListsUser(users: seq<User>, k: int)
    requires 0 <= k < |users|
    ensures MatchesInOrder(ReportText(users), "ID: " + users[k].id, "Nome: " + users[k].nome,
                           "Status: " + StatusText(users[k].status))
  {
    LineInUserLines(users, k);
    var p :| OccursAt(UserLines(users), ReportLine(users[k]), p);
    OccursInContext(ReportHeader, UserLines(users), "", ReportLine(users[k]), p);
    assert ReportHeader + UserLines(users) + "" == ReportText(users);
    LineMatches(ReportText(users), users[k], |ReportHeader| + p);
  }

  /** The report is exactly the empty-state text when, and only when, there are no users. */
  lemma ReportEmptyExactly(users: seq<User>)
    ensures ReportText(users) == EmptyReport <==> users == []
  {
    if users != [] {
      var r := ReportText(users);
      var h := |ReportHeader|;
      assert r[h + 1] == 'I';
      assert EmptyReport[h + 1] == 'N';
    }
  }

  /** The report always begins with its header line. */
  lemma ReportStartsWithHeader(users: seq<User>)
    ensures |ReportText(users)| >= |ReportHeader|
    ensures ReportText(users)[..|ReportHeader|] == ReportHeader
  {
  }
}
