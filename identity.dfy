/** Identity store: the user records, the checks a registration must pass,
    login matching and the lookups the user handlers perform. */
module Identity {
  import opened Wrappers
  import opened Text
  import Seqs

  /** A registered user; the password is kept and compared in the clear, as the source does. */
  datatype User = User(id: int, name: string, email: string, password: string, createdAt: string)

  /** Why a registration was refused, one reason per message the form shows. */
  datatype Reason = MissingField | InvalidEmail | EmailTaken | WeakPassword

  datatype Registration = Accepted | Rejected(reason: Reason)

  // ---------------------------------------------------------------------------
  // E-mail shape: the pattern ^[^\s@]+@[^\s@]+\.[^\s@]+$

  /** `s` is a non-empty run of the class `[^\s@]`. */
  predicate Segment(s: string) {
    s != [] && forall i :: 0 <= i < |s| ==> !IsSpace(s[i]) && s[i] != '@'
  }

  /** The pattern matches `s` with its `@` at `a` and its literal `.` at `d`. */
  ghost predicate ShapeAt(s: string, a: int, d: int) {
    0 <= a < d < |s| && s[a] == '@' && s[d] == '.'
    && Segment(s[..a]) && Segment(s[a + 1..d]) && Segment(s[d + 1..])
  }

  /** The pattern matches `s` for some choice of the `@` and of the `.`
      (the three runs may themselves contain dots, so the split is not unique). */
  ghost predicate EmailShape(s: string) {
    exists a, d :: ShapeAt(s, a, d)
  }

  /** `isValidEmail`: the string matches the e-mail pattern. */
  function IsValidEmail(s: string): (b: bool)
    ensures b <==> EmailShape(s)
  {
    ScanMatchesShape(s);
    ScanEmail(s)
  }

  /** The e-mail check as a single scan: no white space, a first `@` that is not
      the first character and is followed by no other `@`, and a `.` after it
      with at least one character on each side. */
  function ScanEmail(s: string): bool
  {
    match Seqs.FindFirst(s, c => c == '@')
    case None => false
    case Some(a) =>
      0 < a
      && (forall i :: 0 <= i < |s| ==> !IsSpace(s[i]))
      && (forall i :: a < i < |s| ==> s[i] != '@')
      && exists d :: a + 1 < d < |s| - 1 && s[d] == '.'
  }

  /** The scan accepts exactly the strings the pattern matches. */
  lemma ScanMatchesShape(s: string)
    ensures ScanEmail(s) <==> EmailShape(s)
  {
    if ScanEmail(s) {
      var a := Seqs.FindFirst(s, c => c == '@').value;
      var d :| a + 1 < d < |s| - 1 && s[d] == '.';
      assert ShapeAt(s, a, d);
    }
    if EmailShape(s) {
      var a, d :| ShapeAt(s, a, d);
      forall j | 0 <= j < a ensures s[j] != '@' {
        assert s[..a][j] == s[j];
      }
      forall i | 0 <= i < |s| ensures !IsSpace(s[i]) {
        if i < a { assert s[..a][i] == s[i]; }
        else if a < i < d { assert s[a + 1..d][i - a - 1] == s[i]; }
        else if d < i { assert s[d + 1..][i - d - 1] == s[i]; }
      }
      forall i | a < i < |s| ensures s[i] != '@' {
        if i < d { assert s[a + 1..d][i - a - 1] == s[i]; }
        else if d < i { assert s[d + 1..][i - d - 1] == s[i]; }
      }
      var k := Seqs.FindFirst(s, c => c == '@');
      assert k == Some(a);
    }
  }

  /** An accepted address holds exactly one `@`. */
  lemma {:induction false} ValidEmailHasOneAt(s: string)
    requires IsValidEmail(s)
    ensures exists a :: 0 < a < |s| && s[a] == '@' && forall i :: 0 <= i < |s| && s[i] == '@' ==> i == a
  {
    var a, d :| ShapeAt(s, a, d);
    assert 0 < a < |s| && s[a] == '@' by {
      assert s[..a] != [];
    }
    forall i | 0 <= i < |s| && i != a ensures s[i] != '@' {
      if i < a { assert s[..a][i] == s[i]; }
      else if a < i < d { assert s[a + 1..d][i - a - 1] == s[i]; }
      else if d < i { assert s[d + 1..][i - d - 1] == s[i]; }
    }
  }

  // ---------------------------------------------------------------------------
  // Password strength

  /** The characters `\d` matches. */
  predicate IsDigit(c: char) { '0' <= c <= '9' }

  /** The class `[!@#$%^&*(),.?":{}|<>]`. */
  const Specials: string := "!@#$%^&*(),.?\":{}|<>"

  predicate IsSpecial(c: char) { c in Specials }

  /** At least 8 characters, at least one digit, at least one special character. */
  function IsValidPassword(p: string): (b: bool)
    ensures b <==> |p| >= 8
                   && (exists i :: 0 <= i < |p| && IsDigit(p[i]))
                   && (exists i :: 0 <= i < |p| && IsSpecial(p[i]))
  {
    var hasNumber := Seqs.FindFirst(p, IsDigit).Some?;
    var hasSpecial := Seqs.FindFirst(p, IsSpecial).Some?;
    |p| >= 8 && hasNumber && hasSpecial
  }

  // ---------------------------------------------------------------------------
  // Lookups

  /** Some stored user has exactly this e-mail (case-sensitive, no normalisation). */
  function EmailExists(users: seq<User>, email: string): (b: bool)
    ensures b <==> exists i :: 0 <= i < |users| && users[i].email == email
  {
    Seqs.FindFirst(users, (u: User) => u.email == email).Some?
  }

  /** No two stored users share an e-mail. */
  ghost predicate UniqueEmails(users: seq<User>) {
    forall i, j :: 0 <= i < j < |users| ==> users[i].email != users[j].email
  }

  /** Index of the first user with this id. */
  function UserIndex(users: seq<User>, id: int): (k: Option<nat>)
    ensures k.Some? ==> k.value < |users| && users[k.value].id == id
    ensures k.Some? ==> forall j :: 0 <= j < k.value ==> users[j].id != id
    ensures k.None? ==> forall j :: 0 <= j < |users| ==> users[j].id != id
  {
    Seqs.FindFirst(users, (u: User) => u.id == id)
  }

  /** Index of the first user whose e-mail and password both match exactly. */
  function CredentialIndex(users: seq<User>, email: string, password: string): (k: Option<nat>)
    ensures k.Some? ==> k.value < |users| && users[k.value].email == email && users[k.value].password == password
    ensures k.Some? ==> forall j :: 0 <= j < k.value ==> !(users[j].email == email && users[j].password == password)
    ensures k.None? ==> forall j :: 0 <= j < |users| ==> !(users[j].email == email && users[j].password == password)
  {
    Seqs.FindFirst(users, (u: User) => u.email == email && u.password == password)
  }

  /** Login finds a user exactly when some user has both this e-mail and this password. */
  lemma CredentialFound(users: seq<User>, email: string, password: string)
    ensures CredentialIndex(users, email, password).Some? <==>
            exists i :: 0 <= i < |users| && users[i].email == email && users[i].password == password
  {
    var k := CredentialIndex(users, email, password);
    if k.Some? {
      assert users[k.value].email == email && users[k.value].password == password;
    }
  }

  /** The users left after a hard delete: every record with this id is gone,
      the others keep their order. */
  function WithoutUser(users: seq<User>, id: int): (r: seq<User>)
    ensures forall u :: u in r ==> u in users && u.id != id
    ensures forall u :: u in users && u.id != id ==> u in r
    ensures Seqs.SubsequenceOf(r, users)
  {
    Seqs.Filter(users, (u: User) => u.id != id)
  }

  /** A hard delete keeps every other record as many times as it occurs, and
      no record with this id. */
  lemma WithoutUserCounts(users: seq<User>, id: int)
    ensures forall u :: u in users ==>
              multiset(WithoutUser(users, id))[u] == if u.id != id then multiset(users)[u] else 0
  {
    Seqs.FilterCounts(users, (u: User) => u.id != id);
  }

  /** Deleting users never creates a duplicate e-mail. */
  lemma {:induction false} WithoutUserKeepsEmailsUnique(users: seq<User>, id: int)
    requires UniqueEmails(users)
    ensures UniqueEmails(WithoutUser(users, id))
  {
    if users != [] {
      var rest := users[1..];
      assert UniqueEmails(rest) by {
        forall i, j | 0 <= i < j < |rest| ensures rest[i].email != rest[j].email {
          assert rest[i] == users[i + 1] && rest[j] == users[j + 1];
        }
      }
      WithoutUserKeepsEmailsUnique(rest, id);
      var p := (u: User) => u.id != id;
      assert WithoutUser(rest, id) == Seqs.Filter(rest, p);
      if users[0].id != id {
        var r := WithoutUser(users, id);
        assert r == [users[0]] + Seqs.Filter(rest, p);
        forall j | 0 < j < |r| ensures users[0].email != r[j].email {
          assert r[j] in Seqs.Filter(rest, p);
          assert r[j] in rest;
          var m :| 0 <= m < |rest| && rest[m] == r[j];
          assert users[m + 1] == r[j];
        }
      }
    }
  }

  // ---------------------------------------------------------------------------
  // Registration

  /** The registration checks, in the order the handler runs them: all three
      fields present, e-mail shape, e-mail not yet registered, then password
      strength. `name` and `email` are the already trimmed form values. */
  function CheckRegistration(users: seq<User>, name: string, email: string, password: string): (r: Registration)
    ensures r == Rejected(MissingField) <==> name == [] || email == [] || password == []
    ensures r == Rejected(InvalidEmail) <==>
              name != [] && email != [] && password != [] && !EmailShape(email)
    ensures r == Rejected(EmailTaken) <==>
              name != [] && email != [] && password != [] && EmailShape(email)
              && exists i :: 0 <= i < |users| && users[i].email == email
    ensures r == Rejected(WeakPassword) <==>
              name != [] && email != [] && password != [] && EmailShape(email)
              && (forall i :: 0 <= i < |users| ==> users[i].email != email)
              && !IsValidPassword(password)
    ensures r == Accepted <==>
              name != [] && email != [] && password != [] && EmailShape(email)
              && (forall i :: 0 <= i < |users| ==> users[i].email != email)
              && IsValidPassword(password)
  {
    if name == [] || email == [] || password == [] then Rejected(MissingField)
    else if !IsValidEmail(email) then Rejected(InvalidEmail)
    else if EmailExists(users, email) then Rejected(EmailTaken)
    else if !IsValidPassword(password) then Rejected(WeakPassword)
    else Accepted
  }

  /** An address already in use is reported as such even when the password is
      also too weak: the duplicate check runs first. */
  lemma {:induction false} DuplicateReportedBeforeWeakPassword(users: seq<User>, k: nat, name: string, password: string)
    requires k < |users| && name != [] && password != [] && !IsValidPassword(password)
    requires IsValidEmail(users[k].email)
    ensures CheckRegistration(users, name, users[k].email, password) == Rejected(EmailTaken)
  {
  }

  /** Appending a user whose e-mail is not yet registered keeps e-mails unique. */
  lemma {:induction false} AppendNewEmailKeepsUnique(users: seq<User>, u: User)
    requires !EmailExists(users, u.email)
    ensures UniqueEmails(users) ==> UniqueEmails(users + [u])
  {
    var r := users + [u];
    if UniqueEmails(users) {
      forall i, j | 0 <= i < j < |r| ensures r[i].email != r[j].email {
        if j == |users| {
          assert r[i] == users[i];
        } else {
          assert r[i] == users[i] && r[j] == users[j];
        }
      }
    }
  }
}
