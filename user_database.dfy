/** The user table: accounts keyed by username, each with its e-mail
    address, password and medical history.  The table lives in memory; the
    file it is loaded from and saved to is outside the model, and so is the
    clock, whose reading is passed in as `now`. */
module Users {
  import opened Knowledge
  import opened Inference

  /** One saved consultation. */
  datatype HistoryEntry = HistoryEntry(
    timestamp: string,
    symptoms: seq<string>,
    diagnoses: seq<Diagnosis>,
    sessionId: string)

  datatype User = User(
    email: string,
    password: string,
    createdAt: string,
    medicalHistory: seq<HistoryEntry>)

  /** The fields a caller may supply for a history entry; each may be
      absent. */
  datatype DiagnosisData = DiagnosisData(
    symptoms: Option<seq<string>>,
    diagnoses: Option<seq<Diagnosis>>,
    sessionId: Option<string>)

  datatype CreateResult = Created | UsernameTaken | EmailTaken

  datatype AuthResult = Authenticated | UserNotFound | InvalidPassword

  /** `d.get(key, default)` */
  function OrElse<T>(o: Option<T>, default: T): (r: T)
    ensures o.Some? ==> r == o.value
    ensures o.None? ==> r == default
  {
    if o.Some? then o.value else default
  }

  /** The entry `add_diagnosis_to_history` builds: missing lists become
      empty, a missing session id the empty string. */
  function EntryOf(data: DiagnosisData, now: string): (r: HistoryEntry)
    ensures r.timestamp == now
    ensures data.symptoms.Some? ==> r.symptoms == data.symptoms.value
    ensures data.symptoms.None? ==> r.symptoms == []
    ensures data.diagnoses.Some? ==> r.diagnoses == data.diagnoses.value
    ensures data.diagnoses.None? ==> r.diagnoses == []
    ensures data.sessionId.Some? ==> r.sessionId == data.sessionId.value
    ensures data.sessionId.None? ==> r.sessionId == ""
  {
    HistoryEntry(now, OrElse(data.symptoms, []), OrElse(data.diagnoses, []), OrElse(data.sessionId, ""))
  }

  /** Some account uses `email`. */
  predicate EmailInUse(users: map<string, User>, email: string)
  {
    exists name :: name in users && users[name].email == email
  }

  /** No two accounts share an e-mail address: what the checks in
      `create_user` maintain. */
  predicate EmailsUnique(users: map<string, User>)
  {
    forall a, b :: a in users && b in users && a != b ==> users[a].email != users[b].email
  }

  /** Adding an account under a new name with an unused address keeps the
      addresses unique. */
  lemma InsertKeepsEmailsUnique(users: map<string, User>, name: string, u: User)
    requires EmailsUnique(users)
    requires name !in users && !EmailInUse(users, u.email)
    ensures EmailsUnique(users[name := u])
  {
    var m := users[name := u];
    forall a, b | a in m && b in m && a != b ensures m[a].email != m[b].email {
      if a == name {
        assert b in users && users[b].email == m[b].email;
      } else if b == name {
        assert a in users && users[a].email == m[a].email;
      }
    }
  }

  /** Changing only an account's history leaves the address table as it
      was. */
  lemma HistoryChangeKeepsEmails(users: map<string, User>, name: string, h: seq<HistoryEntry>)
    requires name in users
    ensures EmailsUnique(users[name := users[name].(medicalHistory := h)]) <==> EmailsUnique(users)
  {
    var m := users[name := users[name].(medicalHistory := h)];
    assert m.Keys == users.Keys;
    assert forall a :: a in m ==> m[a].email == users[a].email;
  }

  class UserDatabase {
    var users: map<string, User>

    /** `loaded` is the table read from the database file, or empty when
        there is none or it cannot be read. */
    constructor (loaded: map<string, User>)
      ensures users == loaded
    {
      users := loaded;
    }

    /** `create_user`: refuses a taken name first, then a used address;
        otherwise adds the account with an empty history. */
    method CreateUser(username: string, email: string, password: string, now: string)
      returns (result: CreateResult)
      modifies this
      ensures username in old(users) ==> result == UsernameTaken && users == old(users)
      ensures username !in old(users) && EmailInUse(old(users), email) ==>
        result == EmailTaken && users == old(users)
      ensures username !in old(users) && !EmailInUse(old(users), email) ==>
        result == Created && users == old(users)[username := User(email, password, now, [])]
      ensures old(EmailsUnique(users)) ==> EmailsUnique(users)
      ensures result == Created ==>
        Authenticate(username, password) == Authenticated && GetMedicalHistory(username) == []
    {
      if username in users {
        return UsernameTaken;
      }
      if exists name :: name in users && users[name].email == email {
        return EmailTaken;
      }
      if EmailsUnique(users) {
        InsertKeepsEmailsUnique(users, username, User(email, password, now, []));
      }
      users := users[username := User(email, password, now, [])];
      return Created;
    }

    /** `authenticate_user` */
    function Authenticate(username: string, password: string): (r: AuthResult)
      reads this
      ensures r == UserNotFound <==> username !in users
      ensures r == Authenticated <==> username in users && users[username].password == password
    {
      if username !in users then UserNotFound
      else if users[username].password != password then InvalidPassword
      else Authenticated
    }

    /** `get_user` */
    function GetUser(username: string): (r: Option<User>)
      reads this
      ensures r.Some? <==> username in users
      ensures r.Some? ==> r.value == users[username]
    {
      if username in users then Some(users[username]) else None
    }

    /** `add_diagnosis_to_history`: appends one entry to a known user's
        history and touches nothing else. */
    method AddDiagnosisToHistory(username: string, data: DiagnosisData, now: string)
      returns (added: bool)
      modifies this
      ensures added <==> username in old(users)
      ensures !added ==> users == old(users)
      ensures added ==>
        users == old(users)[username := old(users)[username].(medicalHistory :=
          old(users)[username].medicalHistory + [EntryOf(data, now)])]
      ensures added ==>
        GetMedicalHistory(username) == old(GetMedicalHistory(username)) + [EntryOf(data, now)]
      ensures old(EmailsUnique(users)) <==> EmailsUnique(users)
    {
      if username !in users {
        return false;
      }
      var entry := EntryOf(data, now);
      var user := users[username];
      HistoryChangeKeepsEmails(users, username, user.medicalHistory + [entry]);
      users := users[username := user.(medicalHistory := user.medicalHistory + [entry])];
      return true;
    }

    /** `get_medical_history` */
    function GetMedicalHistory(username: string): (r: seq<HistoryEntry>)
      reads this
      ensures username !in users ==> r == []
      ensures username in users ==> r == users[username].medicalHistory
    {
      if username !in users then [] else users[username].medicalHistory
    }

    /** `clear_history` */
    method ClearHistory(username: string) returns (cleared: bool)
      modifies this
      ensures cleared <==> username in old(users)
      ensures !cleared ==> users == old(users)
      ensures cleared ==> users == old(users)[username := old(users)[username].(medicalHistory := [])]
      ensures GetMedicalHistory(username) == []
      ensures old(EmailsUnique(users)) <==> EmailsUnique(users)
    {
      if username in users {
        HistoryChangeKeepsEmails(users, username, []);
        users := users[username := users[username].(medicalHistory := [])];
        return true;
      }
      return false;
    }
  }
}
