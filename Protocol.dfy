/** The line protocol of the dictionary server: the fixed user table, the
    credential check of the login line, and the decoding of a request line
    into a command and its argument (server_auth.py). */
module Protocol {
  import opened Text

  datatype Option<T> = None | Some(value: T)

  datatype Role = Admin | User {
    /** The role as the user table and the login reply spell it. */
    function Name(): string
    {
      match this
      case Admin => "admin"
      case User => "user"
    }
  }

  datatype Account = Account(password: string, role: Role)

  /** The user table the server is constructed with; every operation below
      takes the table as a parameter. */
  const DefaultUsers: map<string, Account> := map[
    "admin" := Account("admin123", Admin),
    "user1" := Account("user123", User),
    "user2" := Account("user123", User)
  ]

  /** The status tag a reply line starts with; clients branch on it. */
  datatype Status = Welcome | Success | Error | NotFound
  {
    function Name(): string
    {
      match this
      case Welcome => "WELCOME"
      case Success => "SUCCESS"
      case Error => "ERROR"
      case NotFound => "NOTFOUND"
    }
  }

  /** A proposal waiting for review: an `add` of a new word or an `update` of
      an existing one, whose meaning at submission time is kept as
      `oldMeaning`. */
  datatype Proposal =
    | Add(word: string, meaning: string, username: string, timestamp: string)
    | Update(word: string, oldMeaning: string, newMeaning: string, username: string, timestamp: string)
  {
    /** The meaning the word gets when the proposal is approved. */
    function Proposed(): string
    {
      match this
      case Add(_, meaning, _, _) => meaning
      case Update(_, _, newMeaning, _, _) => newMeaning
    }
  }

  /** One `{"word", "meaning"}` object of a `LIST_DATA` payload. */
  datatype Entry = Entry(word: string, meaning: string)

  /** One object of a `PENDING_DATA` payload: a proposal with its id. */
  datatype Item = Item(id: string, request: Proposal)

  /** The meaning a proposal would give its word, as `APPROVE` reports it. */
  function ApprovalNote(req: Proposal): string
  {
    match req
    case Add(word, meaning, _, _) => "Added '" + word + "': " + meaning
    case Update(word, _, newMeaning, _, _) => "Updated '" + word + "' to: " + newMeaning
  }

  /** The message part of every status line the server sends; `Text` is its
      exact wording. */
  datatype Message =
    | Greet
    | LoginFormatHelp
    | BadCredentials
    | LoginOk(role: Role)
    | TraUsage
    | Found(word: string, meaning: string)
    | NotInDictionary(word: string)
    | AccessDenied
    | AdminOnly
    | ThemUsage
    | SuaUsage
    | EmptyWordOrMeaning
    | AlreadyExists(word: string)
    | NoSuchWord(word: string)
    | AddQueued(word: string, meaning: string)
    | UpdateQueued(word: string, oldMeaning: string, newMeaning: string)
    | ApproveUsage
    | RejectUsage
    | NoSuchRequest(id: string)
    | Approved(request: Proposal)
    | Rejected(word: string)
    | Goodbye
    | UnknownCommand(name: string)
  {
    function Text(): string
    {
      match this
      case Greet => "Dictionary Server v2.0 - Please Login"
      case LoginFormatHelp => "Invalid login format. Use: LOGIN|username|password"
      case BadCredentials => "Invalid username or password"
      case LoginOk(role) => role.Name() + "|" + "Login successful as " + role.Name()
      case TraUsage => "Usage: TRA|word"
      case Found(word, meaning) => word + ": " + meaning
      case NotInDictionary(word) => "Word '" + word + "' not found in dictionary"
      case AccessDenied => "Access denied"
      case AdminOnly => "Access denied. Admin only"
      case ThemUsage => "Usage: THEM|word:meaning"
      case SuaUsage => "Usage: SUA|word:meaning"
      case EmptyWordOrMeaning => "Word and meaning cannot be empty"
      case AlreadyExists(word) => "Word '" + word + "' already exists"
      case NoSuchWord(word) => "Word '" + word + "' not found"
      case AddQueued(word, meaning) => "Request submitted for approval\nWord: " + word + "\nMeaning: " + meaning
      case UpdateQueued(word, oldMeaning, newMeaning) =>
        "Update request submitted for approval\nWord: " + word + "\nOld: " + oldMeaning + "\nNew: " + newMeaning
      case ApproveUsage => "Usage: APPROVE|request_id"
      case RejectUsage => "Usage: REJECT|request_id"
      case NoSuchRequest(id) => "Request '" + id + "' not found"
      case Approved(request) => "Request approved!\n" + ApprovalNote(request)
      case Rejected(word) => "Request rejected\nWord: " + word
      case Goodbye => "Goodbye!"
      case UnknownCommand(name) => "Unknown command: " + name
    }
  }

  /** What the server sends: a status line `<STATUS>|<message>`, or one of
      the two bulk payloads (whose JSON text is not modelled). */
  datatype Reply =
    | Line(status: Status, message: Message)
    | ListData(entries: seq<Entry>)
    | PendingData(items: seq<Item>)
  {
    /** The text of a status line as it goes on the wire. */
    function Wire(): (w: string)
      requires Line?
      ensures Tag(w) == status.Name()
      ensures "SUCCESS" <= w <==> status == Success
    {
      var text := message.Text();
      TaggedSuccess(status, text);
      Tagged(status.Name(), text)
    }
  }

  /** A status line starts with `SUCCESS` exactly when its tag is the success
      tag: no other tag starts like it. */
  lemma TaggedSuccess(status: Status, text: string)
    ensures "SUCCESS" <= Tagged(status.Name(), text) <==> status == Success
  {
    var w := Tagged(status.Name(), text);
    assert w[0] == status.Name()[0];
  }

  /** The greeting sent on every new connection. */
  const Greeting: Reply := Line(Welcome, Greet)

  /** A login line is accepted when it has exactly three `|`-separated parts,
      the first is `LOGIN` in any case, the second names a user of the table
      and the third is that user's password. */
  predicate Accepted(users: map<string, Account>, line: string)
  {
    var parts := Split(line, '|');
    && |parts| == 3
    && Upper(parts[0]) == "LOGIN"
    && parts[1] in users
    && users[parts[1]].password == parts[2]
  }

  /** The user name of an accepted login line (its second part). */
  function LoginUser(users: map<string, Account>, line: string): (user: string)
    requires Accepted(users, line)
    ensures user in users && '|' !in user
  {
    SplitParts(line, '|');
    Split(line, '|')[1]
  }

  /** The role the session runs with after an accepted login line. */
  function LoginRole(users: map<string, Account>, line: string): Role
    requires Accepted(users, line)
  {
    users[LoginUser(users, line)].role
  }

  /** The status tag of a reply line: everything before its first `|`.
      Clients branch on it. */
  function Tag(line: string): string
  {
    SplitFirst(line, '|')[0]
  }

  /** A reply line made of a status tag, `|` and a message. */
  function Tagged(tag: string, message: string): (line: string)
    requires '|' !in tag
    ensures Tag(line) == tag && line[..|tag|] == tag
  {
    SplitFirstOf(tag, '|', message);
    tag + "|" + message
  }

  /** The login line has the shape `authenticate` insists on before it looks
      at the credentials: three `|`-separated parts, the first `LOGIN` in any
      case. */
  predicate LoginShaped(line: string)
  {
    var parts := Split(line, '|');
    |parts| == 3 && Upper(parts[0]) == "LOGIN"
  }

  /** `authenticate`: a `SUCCESS` reply for an accepted line and an `ERROR`
      reply for every other line, telling a malformed line from wrong
      credentials. */
  function Authenticate(users: map<string, Account>, line: string): (reply: Reply)
    ensures reply.Line?
    ensures reply.status == Success <==> Accepted(users, line)
    ensures !Accepted(users, line) ==> reply == Line(Error, if LoginShaped(line) then BadCredentials else LoginFormatHelp)
    ensures Accepted(users, line) ==> reply == Line(Success, LoginOk(LoginRole(users, line)))
  {
    var parts := Split(line, '|');
    if |parts| != 3 || Upper(parts[0]) != "LOGIN" then
      Line(Error, LoginFormatHelp)
    else if parts[1] in users && users[parts[1]].password == parts[2] then
      Line(Success, LoginOk(users[parts[1]].role))
    else
      Line(Error, BadCredentials)
  }

  /** `handle_client` tests the reply with `startswith("SUCCESS")`, which
      holds exactly for accepted lines; the success line has three fields, the
      second being the role the session will run with. */
  lemma AuthenticateReportsRole(users: map<string, Account>, line: string)
    requires Accepted(users, line)
    ensures var role := LoginRole(users, line).Name();
      Split(Authenticate(users, line).Wire(), '|') == ["SUCCESS", role, "Login successful as " + role]
  {
    var role := LoginRole(users, line).Name();
    var message := "Login successful as " + role;
    assert '|' !in message && '|' !in role;
    var reply := Authenticate(users, line);
    assert reply.message.Text() == role + "|" + message;
    assert reply.Wire() == "SUCCESS" + "|" + (role + "|" + message);
    assert reply.Wire() == "SUCCESS" + "|" + role + "|" + message;
    SplitThree("SUCCESS", role, message, '|');
  }

  /** `line` is `k|u|p` with none of the three fields containing `|`. */
  predicate LoginFields(line: string, k: string, u: string, p: string)
  {
    '|' !in k && '|' !in u && '|' !in p && line == k + "|" + u + "|" + p
  }

  /** The credential check stated without `split`: a line is accepted exactly
      when it is `LOGIN|user|password` (any case for `LOGIN`, no `|` inside a
      field) for a user of the table and that user's password; the session
      then belongs to that user. */
  lemma {:induction false} AcceptedExactly(users: map<string, Account>, line: string)
    ensures Accepted(users, line) <==>
      exists k, u, p :: LoginFields(line, k, u, p) && Upper(k) == "LOGIN" && u in users && users[u].password == p
    ensures forall k, u, p :: LoginFields(line, k, u, p) && Accepted(users, line) ==> LoginUser(users, line) == u
  {
    forall k, u, p | LoginFields(line, k, u, p)
      ensures Split(line, '|') == [k, u, p]
    {
      SplitThree(k, u, p, '|');
    }
    if Accepted(users, line) {
      var parts := Split(line, '|');
      SplitParts(line, '|');
      assert parts[1..] == [parts[1], parts[2]] && parts[1..][1..] == [parts[2]];
      assert Join(parts[1..], '|') == parts[1] + "|" + parts[2];
      assert line == parts[0] + "|" + (parts[1] + "|" + parts[2]);
      assert LoginFields(line, parts[0], parts[1], parts[2]);
    }
  }

  /** A request line decoded: the command is the part before the first `|`,
      in upper case; the argument, if there is a `|`, is everything after it. */
  datatype Command =
    | Tra(arg: Option<string>)
    | List
    | Pending
    | Them(arg: Option<string>)
    | Sua(arg: Option<string>)
    | Approve(arg: Option<string>)
    | Reject(arg: Option<string>)
    | Quit
    | Unknown(name: string)

  /** The dispatch on the upper-cased command name of `process_request`. */
  function Classify(name: string, arg: Option<string>): Command
  {
    if name == "TRA" then Tra(arg)
    else if name == "LIST" then List
    else if name == "PENDING" then Pending
    else if name == "THEM" then Them(arg)
    else if name == "SUA" then Sua(arg)
    else if name == "APPROVE" then Approve(arg)
    else if name == "REJECT" then Reject(arg)
    else if name == "QUIT" then Quit
    else Unknown(name)
  }

  /** `request.split('|', 1)` followed by the dispatch on `parts[0].upper()`. */
  function ParseRequest(request: string): (c: Command)
    ensures (c.Tra? || c.Them? || c.Sua? || c.Approve? || c.Reject?) ==> (c.arg.Some? <==> '|' in request)
    ensures c.Unknown? ==> '|' !in c.name
  {
    var parts := SplitFirst(request, '|');
    UpperAt(parts[0]);
    Classify(Upper(parts[0]), if |parts| == 2 then Some(parts[1]) else None)
  }

  /** Decoding undoes the client's `verb|argument` encoding: the command is
      chosen by the verb in any case, and the argument comes back whole, even
      when it contains further `|` characters. */
  lemma ParseCommandLine(verb: string, arg: string)
    requires '|' !in verb
    ensures ParseRequest(verb + "|" + arg) == Classify(Upper(verb), Some(arg))
    ensures ParseRequest(verb) == Classify(Upper(verb), None)
  {
    SplitFirstOf(verb, '|', arg);
  }

  /** The argument of `THEM` and `SUA` decoded: no argument or no `:` in it,
      an empty word or meaning after trimming, or the word (lower case,
      trimmed) and the meaning (trimmed). */
  datatype Submission = NoColon | EmptyField | WordMeaning(word: string, meaning: string)

  function ParseSubmission(arg: Option<string>): (f: Submission)
    ensures f.NoColon? <==> (arg.None? || ':' !in arg.value)
    ensures f.WordMeaning? ==> f.word != [] && f.meaning != [] && Trimmed(f.word) && Trimmed(f.meaning)
    ensures f.WordMeaning? ==> forall i :: 0 <= i < |f.word| ==> !('A' <= f.word[i] <= 'Z')
  {
    if arg.None? || ':' !in arg.value then NoColon
    else
      var halves := SplitFirst(arg.value, ':');
      var word := Strip(Lower(halves[0]));
      var meaning := Strip(halves[1]);
      StripInside(Lower(halves[0]));
      LowerAt(halves[0]);
      if word == [] || meaning == [] then EmptyField else WordMeaning(word, meaning)
  }

  /** `word:meaning` decodes to the normalised word and meaning, split at the
      first `:` (the meaning may contain more). */
  lemma ParseSubmissionOf(word: string, meaning: string)
    requires ':' !in word
    ensures ParseSubmission(Some(word + ":" + meaning)) ==
      var w, m := Strip(Lower(word)), Strip(meaning);
      if w == [] || m == [] then EmptyField else WordMeaning(w, m)
  {
    SplitFirstOf(word, ':', meaning);
  }
}
