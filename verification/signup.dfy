/**
 * The signup route: validates the three fields, loads the user list from
 * the data file (a missing or unparsable file reads as the empty list),
 * rejects an email already present up to case, appends one record holding
 * a password hash, rewrites the file and then posts a notice to a chat
 * webhook. The hash, the fresh user id and the success of the file write
 * and of the webhook call are parameters: they come from bcrypt,
 * `randomUUID`, the file system and the network.
 */
module Signup {
  import opened Wrappers
  import opened Json

  /** One stored account: the email keeps the case it was given, no plaintext password. */
  datatype User = User(userId: string, email: string, username: string, passwordHash: string)

  /** The data file as `fs.readFile` + `JSON.parse` see it. */
  datatype UserFile = Missing | Unparsable | Users(users: seq<User>)

  /** The destructured request body; None is an absent, `null` or `undefined` field. */
  datatype SignupBody = SignupBody(email: Option<string>, username: Option<string>, password: Option<string>)

  /** One `{name, value}` field of the webhook embed. */
  datatype EmbedField = EmbedField(name: string, value: string)

  /** The webhook notice: the embed's fields (title, colour, footer and timestamp are constant decoration). */
  datatype Notice = Notice(fields: seq<EmbedField>)

  datatype Response =
    | MissingFields              // 400 {error: "missing fields"}
    | EmailInUse(username: string)  // 400 {error: "email already in use", help, username}
    | Created(userId: string)    // 200 {message: "account created successfully", userId}
    | ServerError                // 500 {error: "server error"}

  /** What one request leaves behind: the response, the data file and the notice sent, if any. */
  datatype Outcome = Outcome(response: Response, file: UserFile, notice: Option<Notice>)

  /** `String.prototype.toLowerCase` on one character, for the ASCII range. */
  function LowerChar(c: char): char {
    if 'A' <= c <= 'Z' then (c as int + 32) as char else c
  }

  /** `String.prototype.toLowerCase`, for the ASCII range. */
  function Lower(s: string): (r: string)
    ensures |r| == |s|
    ensures forall i :: 0 <= i < |s| ==> r[i] == LowerChar(s[i])
  {
    if s == [] then [] else [LowerChar(s[0])] + Lower(s[1..])
  }

  /** The duplicate test: equal after lowercasing both sides. */
  predicate SameEmail(a: string, b: string) {
    Lower(a) == Lower(b)
  }

  /** The store invariant: no two accounts share an email up to case. */
  ghost predicate EmailsUnique(users: seq<User>) {
    forall i, j :: 0 <= i < j < |users| ==> !SameEmail(users[i].email, users[j].email)
  }

  /** The invariant on the data file: whatever list it holds is duplicate-free. */
  ghost predicate FileInvariant(f: UserFile) {
    f.Users? ==> EmailsUnique(f.users)
  }

  /** The list the handler works on: a missing or unparsable file reads as no users. */
  function LoadUsers(f: UserFile): (users: seq<User>)
    ensures f.Users? ==> users == f.users
    ensures !f.Users? ==> users == []
  {
    if f.Users? then f.users else []
  }

  /** `users.find(u => u.email.toLowerCase() === email.toLowerCase())`, as the index found. */
  function FindByEmail(users: seq<User>, email: string): (r: Option<nat>)
    ensures r.Some? ==> r.value < |users| && SameEmail(users[r.value].email, email)
    ensures r.Some? ==> forall j :: 0 <= j < r.value ==> !SameEmail(users[j].email, email)
    ensures r.None? <==> forall j :: 0 <= j < |users| ==> !SameEmail(users[j].email, email)
  {
    if users == [] then None
    else if SameEmail(users[0].email, email) then Some(0)
    else
      match FindByEmail(users[1..], email)
      case None => None
      case Some(k) =>
        assert users[1..][k] == users[k + 1];
        Some(k + 1)
  }

  /** The webhook notice: username, email and user id, in that order, and nothing else. */
  function NoticeFor(username: string, email: string, userId: string): (n: Notice)
    ensures |n.fields| == 3
    ensures n.fields[0].name == "Username" && n.fields[0].value == username
    ensures n.fields[1].name == "Email" && n.fields[1].value == email
    ensures n.fields[2].name == "UserID" && n.fields[2].value == userId
  {
    Notice([EmbedField("Username", username), EmbedField("Email", email), EmbedField("UserID", userId)])
  }

  /**
   * POST /api/auth/signup. `body` is None when `req.json()` throws or yields
   * `null`; `hash` is bcrypt's output for the password; `userId` is the
   * fresh UUID; `writeOk` and `notifyOk` say whether the file write and the
   * webhook `fetch` completed without throwing.
   */
  function HandleSignup(file: UserFile, body: Option<SignupBody>, hash: string, userId: string,
                        writeOk: bool, notifyOk: bool): (o: Outcome)
    // a body that cannot be read is a server error, and nothing is written or sent
    ensures body.None? ==> o == Outcome(ServerError, file, None)
    // any missing field is rejected before the file is read
    ensures body.Some? ==>
      (o.response == MissingFields <==>
        Blank(body.value.email) || Blank(body.value.username) || Blank(body.value.password))
    // a duplicate email (up to case) is rejected, naming the first matching account
    ensures o.response.EmailInUse? <==>
      body.Some? && !o.response.MissingFields? &&
      exists i :: 0 <= i < |LoadUsers(file)| && SameEmail(LoadUsers(file)[i].email, body.value.email.value)
    ensures o.response.EmailInUse? ==>
      exists i :: 0 <= i < |LoadUsers(file)| && LoadUsers(file)[i].username == o.response.username
                  && SameEmail(LoadUsers(file)[i].email, body.value.email.value)
    // every rejection leaves the file as it was and sends nothing
    ensures o.response.MissingFields? || o.response.EmailInUse? ==> o.file == file && o.notice.None?
    // the file changes only by appending exactly one record built from the request
    ensures o.file != file ==>
      body.Some? && o.file == Users(LoadUsers(file) +
        [User(userId, body.value.email.value, body.value.username.value, hash)])
    // the notice goes out exactly when the record was written, carrying no secret
    ensures o.notice.Some? <==> o.file != file
    ensures o.notice.Some? ==>
      o.notice.value == NoticeFor(body.value.username.value, body.value.email.value, userId)
    // once the request passes both checks, the file changes exactly when the write completes
    ensures body.Some? && !o.response.MissingFields? && !o.response.EmailInUse? ==> (o.file != file <==> writeOk)
    // success means the record was appended and the webhook call completed
    ensures o.response.Created? <==>
      body.Some? && !o.response.MissingFields? && !o.response.EmailInUse? && writeOk && notifyOk
    ensures o.response.Created? ==>
      && o.response.userId == userId
      && o.file == Users(LoadUsers(file) + [User(userId, body.value.email.value, body.value.username.value, hash)])
  {
    if body.None? then Outcome(ServerError, file, None)
    else
      var b := body.value;
      if Blank(b.email) || Blank(b.username) || Blank(b.password) then
        Outcome(MissingFields, file, None)
      else
        var users := LoadUsers(file);
        match FindByEmail(users, b.email.value)
        case Some(i) => Outcome(EmailInUse(users[i].username), file, None)
        case None =>
          if !writeOk then Outcome(ServerError, file, None)
          else
            var file' := Users(users + [User(userId, b.email.value, b.username.value, hash)]);
            var notice := NoticeFor(b.username.value, b.email.value, userId);
            if notifyOk then Outcome(Created(userId), file', Some(notice))
            else Outcome(ServerError, file', Some(notice))
  }

  /** Every signup keeps the emails in the data file pairwise distinct up to case. */
  lemma SignupPreservesUniqueness(file: UserFile, body: Option<SignupBody>, hash: string, userId: string,
                                  writeOk: bool, notifyOk: bool)
    requires FileInvariant(file)
    ensures FileInvariant(HandleSignup(file, body, hash, userId, writeOk, notifyOk).file)
  {
    var o := HandleSignup(file, body, hash, userId, writeOk, notifyOk);
    if o.file != file {
      var users := LoadUsers(file);
      var email := body.value.email.value;
      var users' := o.file.users;
      assert FindByEmail(users, email).None?;
      forall i, j | 0 <= i < j < |users'|
        ensures !SameEmail(users'[i].email, users'[j].email)
      {
        if j == |users| {
          assert users'[j].email == email;
          assert users'[i] == users[i];
        } else {
          assert users'[i] == users[i] && users'[j] == users[j];
        }
      }
    }
  }

  /**
   * Once a signup has written its record, a second signup whose email differs
   * only in case is rejected, and the rejection names the first account.
   */
  lemma SecondSignupRejected(file: UserFile, email: string, username: string, password: string,
                             hash: string, userId: string, notifyOk: bool,
                             email2: string, username2: string, password2: string,
                             hash2: string, userId2: string, writeOk2: bool, notifyOk2: bool)
    requires FileInvariant(file)
    requires var o := HandleSignup(file, Some(SignupBody(Some(email), Some(username), Some(password))),
                                   hash, userId, true, notifyOk);
             o.file != file
    requires SameEmail(email, email2)
    requires username2 != "" && password2 != ""
    ensures var o := HandleSignup(file, Some(SignupBody(Some(email), Some(username), Some(password))),
                                  hash, userId, true, notifyOk);
            HandleSignup(o.file, Some(SignupBody(Some(email2), Some(username2), Some(password2))),
                         hash2, userId2, writeOk2, notifyOk2).response == EmailInUse(username)
  {
    var o := HandleSignup(file, Some(SignupBody(Some(email), Some(username), Some(password))),
                          hash, userId, true, notifyOk);
    var users := LoadUsers(file);
    assert FindByEmail(users, email).None?;
    var users' := o.file.users;
    assert users' == users + [User(userId, email, username, hash)];
    assert email2 != "" by {
      assert |Lower(email2)| == |Lower(email)| == |email|;
    }
    var found := FindByEmail(users', email2);
    assert SameEmail(users'[|users|].email, email2);
    assert found.Some?;
  }

  /**
   * When the webhook call throws after the write, the caller sees a server
   * error although the account is already persisted.
   */
  lemma WebhookFailureAfterWrite(file: UserFile, email: string, username: string, password: string,
                                 hash: string, userId: string)
    requires email != "" && username != "" && password != ""
    requires forall u :: u in LoadUsers(file) ==> !SameEmail(u.email, email)
    ensures var o := HandleSignup(file, Some(SignupBody(Some(email), Some(username), Some(password))),
                                  hash, userId, true, false);
            && o.response == ServerError
            && o.file == Users(LoadUsers(file) + [User(userId, email, username, hash)])
  {
  }

  /**
   * The signup form sends only `{email, username}`: with no password every
   * such request is rejected as missing fields and the file is untouched.
   */
  lemma RequestWithoutPasswordRejected(file: UserFile, email: Option<string>, username: Option<string>,
                                       hash: string, userId: string, writeOk: bool, notifyOk: bool)
    ensures HandleSignup(file, Some(SignupBody(email, username, None)), hash, userId, writeOk, notifyOk)
            == Outcome(MissingFields, file, None)
  {
  }

  /** A missing or unparsable data file behaves exactly like an empty user list. */
  lemma UnreadableFileIsEmptyList(file: UserFile, body: Option<SignupBody>, hash: string, userId: string,
                                  writeOk: bool, notifyOk: bool)
    requires !file.Users?
    ensures var o := HandleSignup(file, body, hash, userId, writeOk, notifyOk);
            var e := HandleSignup(Users([]), body, hash, userId, writeOk, notifyOk);
            o.response == e.response && o.notice == e.notice
            && (o.file != file ==> o.file == e.file)
  {
  }
}
