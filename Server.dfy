/** The `DictionaryServer` object (server_auth.py:7-373) without its socket,
    thread and file plumbing: the dictionary and the pending proposals are
    fields updated in place, and each operation is proved to do what the
    corresponding function of `DictionaryStore` or `Session` says. */
module Server {
  import opened Text
  import opened Protocol
  import opened DictionaryStore
  import opened Session

  /** The listing of a set of words starts with its least word. */
  lemma ListingOfLeast(dictionary: map<string, string>, keys: set<string>, w: string)
    requires keys <= dictionary.Keys && IsLeast(w, keys)
    ensures ListingOf(dictionary, keys) == [Entry(w, dictionary[w])] + ListingOf(dictionary, keys - {w})
  {
    var es := ListingOf(dictionary, keys);
    ListingCovers(dictionary, keys);
    var first := es[0].word;
    assert IsLeast(first, keys) by {
      forall v | v in keys && v != first
        ensures Less(first, v)
      {
        var i :| 0 <= i < |es| && es[i].word == v;
        assert i != 0;
      }
    }
    LeastUnique(w, first, keys);
  }

  /** Moving the least word from the words left to the entries listed so
      far keeps the listing. */
  lemma ListingTake(dictionary: map<string, string>, keys: set<string>, w: string, entries: seq<Entry>, target: seq<Entry>)
    requires keys <= dictionary.Keys && IsLeast(w, keys)
    requires entries + ListingOf(dictionary, keys) == target
    ensures (entries + [Entry(w, dictionary[w])]) + ListingOf(dictionary, keys - {w}) == target
  {
    ListingOfLeast(dictionary, keys, w);
    AppendShift(entries, Entry(w, dictionary[w]), ListingOf(dictionary, keys - {w}));
  }

  lemma ListingEmpty(dictionary: map<string, string>, entries: seq<Entry>, target: seq<Entry>)
    requires entries + ListingOf(dictionary, {}) == target
    ensures entries == target
  {
    assert entries + [] == entries;
  }

  lemma AppendShift<T>(a: seq<T>, e: T, b: seq<T>)
    ensures (a + [e]) + b == a + ([e] + b)
  {
  }

  /** The loop of `handle_client` stops on a line that is empty once
      trimmed, or when there is nothing more to receive. */
  lemma ServeEnds(s: Store, role: Role, user: string, inputs: seq<Received>)
    requires s.Valid() && (inputs == [] || Ends(inputs[0]))
    ensures Serve(s, role, user, inputs) == (s, [])
  {
  }

  /** One turn of the loop of `handle_client` on the line at `i`. */
  lemma ServeAt(s: Store, role: Role, user: string, inputs: seq<Received>, i: nat, after: Store, reply: Reply)
    requires s.Valid() && i < |inputs| && !Ends(inputs[i])
    requires (after, reply) == Step(s, Strip(inputs[i].data), role, user, inputs[i].at)
    ensures IsQuit(inputs[i]) ==> Serve(s, role, user, inputs[i..]) == (after, [reply])
    ensures !IsQuit(inputs[i]) ==>
      var rest := Serve(after, role, user, inputs[i + 1..]);
      Serve(s, role, user, inputs[i..]) == (rest.0, [reply] + rest.1)
  {
    Suffix(inputs, i);
    if IsQuit(inputs[i]) {
      ServeQuit(s, role, user, inputs[i..]);
    } else {
      ServeMore(s, role, user, inputs[i..]);
    }
  }

  lemma Suffix(inputs: seq<Received>, i: nat)
    requires i < |inputs|
    ensures inputs[i..] != [] && inputs[i..][0] == inputs[i] && inputs[i..][1..] == inputs[i + 1..]
  {
  }

  /** A connection whose login is accepted: greeting, login reply, then the
      request loop as the logged-in user. */
  lemma RunAccepted(s: Store, users: map<string, Account>, inputs: seq<Received>, user: string, after: Store, replies: seq<Reply>)
    requires s.Valid() && Authenticate(users, LoginLine(inputs)).status == Success
    requires user == Split(LoginLine(inputs), '|')[1] && user in users
    requires (after, replies) == Serve(s, users[user].role, user, inputs[1..])
    ensures Run(s, users, inputs) == (after, [Greeting, Authenticate(users, LoginLine(inputs))] + replies)
  {
  }

  /** `sorted(words.items())`, by repeatedly taking the least word not
      listed yet. */
  method SortedEntries(words: map<string, string>) returns (entries: seq<Entry>)
    ensures entries == Listing(words)
  {
    ghost var target := ListingOf(words, words.Keys);
    var rest := words.Keys;
    entries := [];
    while rest != {}
      invariant rest <= words.Keys
      invariant entries + ListingOf(words, rest) == target
      decreases rest
    {
      LeastExists(rest);
      var w :| IsLeast(w, rest);
      ListingTake(words, rest, w, entries, target);
      entries := entries + [Entry(w, words[w])];
      rest := rest - {w};
    }
    ListingEmpty(words, entries, target);
  }

  /** A connection whose login is refused: greeting and login reply only. */
  lemma RunRejected(s: Store, users: map<string, Account>, inputs: seq<Received>)
    requires s.Valid() && Authenticate(users, LoginLine(inputs)).status != Success
    ensures Run(s, users, inputs) == (s, [Greeting, Authenticate(users, LoginLine(inputs))])
  {
  }

  class DictionaryServer {
    var dictionary: map<string, string>
    var pending: map<string, Proposal>
    /** The insertion order of the keys of `pending`. */
    var pendingOrder: seq<string>
    const users: map<string, Account>

    function Snapshot(): Store
      reads this
    {
      Store(dictionary, pending, pendingOrder)
    }

    ghost predicate Valid()
      reads this
    {
      Snapshot().Valid()
    }

    /** A server with the seed dictionary, no pending proposal and the fixed
        user table. */
    constructor ()
      ensures Valid()
      ensures Snapshot() == Store(Seed, map[], []) && users == DefaultUsers
    {
      dictionary := Seed;
      pending := map[];
      pendingOrder := [];
      users := DefaultUsers;
    }

    /** The `for req_id, req in self.pending.items()` loop of `PENDING`. */
    method CollectPending() returns (items: seq<Item>)
      requires Valid()
      ensures items == PendingItems(Snapshot())
    {
      items := [];
      var i := 0;
      while i < |pendingOrder|
        invariant 0 <= i <= |pendingOrder|
        invariant items == PendingItems(Snapshot())[..i]
      {
        var id := pendingOrder[i];
        items := items + [Item(id, pending[id])];
        i := i + 1;
      }
    }

    /** `THEM|word:meaning`. */
    method SubmitAdd(arg: Option<string>, username: string, at: Clock) returns (reply: Reply)
      requires Valid()
      modifies this
      ensures Valid()
      ensures (Snapshot(), reply) == ProposeAdd(old(Snapshot()), arg, username, at)
    {
      match ParseSubmission(arg)
      case NoColon =>
        reply := Line(Error, ThemUsage);
      case EmptyField =>
        reply := Line(Error, EmptyWordOrMeaning);
      case WordMeaning(word, meaning) =>
        if word in dictionary {
          reply := Line(Error, AlreadyExists(word));
        } else {
          var id := RequestId(word, at);
          pending := pending[id := Add(word, meaning, username, at.timestamp)];
          pendingOrder := Put(pendingOrder, id);
          reply := Line(Success, AddQueued(word, meaning));
        }
    }

    /** `SUA|word:meaning`. */
    method SubmitUpdate(arg: Option<string>, username: string, at: Clock) returns (reply: Reply)
      requires Valid()
      modifies this
      ensures Valid()
      ensures (Snapshot(), reply) == ProposeUpdate(old(Snapshot()), arg, username, at)
    {
      match ParseSubmission(arg)
      case NoColon =>
        reply := Line(Error, SuaUsage);
      case EmptyField =>
        reply := Line(Error, EmptyWordOrMeaning);
      case WordMeaning(word, meaning) =>
        if word !in dictionary {
          reply := Line(Error, NoSuchWord(word));
        } else {
          var oldMeaning := dictionary[word];
          var id := RequestId(word, at);
          pending := pending[id := Update(word, oldMeaning, meaning, username, at.timestamp)];
          pendingOrder := Put(pendingOrder, id);
          reply := Line(Success, UpdateQueued(word, oldMeaning, meaning));
        }
    }

    /** `APPROVE|request_id`. */
    method Approve(role: Role, arg: Option<string>) returns (reply: Reply)
      requires Valid()
      modifies this
      ensures Valid()
      ensures (Snapshot(), reply) == ApproveRequest(old(Snapshot()), role, arg)
    {
      if role != Admin {
        return Line(Error, AdminOnly);
      }
      if arg.None? {
        return Line(Error, ApproveUsage);
      }
      var id := Strip(arg.value);
      if id !in pending {
        return Line(Error, NoSuchRequest(id));
      }
      var req := pending[id];
      match req {
        case Add(word, meaning, _, _) =>
          dictionary := dictionary[word := meaning];
        case Update(word, _, newMeaning, _, _) =>
          dictionary := dictionary[word := newMeaning];
      }
      pending := pending - {id};
      pendingOrder := Remove(pendingOrder, id);
      reply := Line(Success, Approved(req));
    }

    /** `REJECT|request_id`. */
    method Reject(role: Role, arg: Option<string>) returns (reply: Reply)
      requires Valid()
      modifies this
      ensures Valid()
      ensures (Snapshot(), reply) == RejectRequest(old(Snapshot()), role, arg)
    {
      if role != Admin {
        return Line(Error, AdminOnly);
      }
      if arg.None? {
        return Line(Error, RejectUsage);
      }
      var id := Strip(arg.value);
      if id !in pending {
        return Line(Error, NoSuchRequest(id));
      }
      var req := pending[id];
      pending := pending - {id};
      pendingOrder := Remove(pendingOrder, id);
      reply := Line(Success, Rejected(req.word));
    }

    /** `process_request(request, role, username)`. */
    method ProcessRequest(request: string, role: Role, username: string, at: Clock) returns (reply: Reply)
      requires Valid()
      modifies this
      ensures Valid()
      ensures (Snapshot(), reply) == Step(old(Snapshot()), request, role, username, at)
    {
      match ParseRequest(request)
      case Tra(arg) =>
        reply := Translate(dictionary, arg);
      case List =>
        var entries := SortedEntries(dictionary);
        reply := ListData(entries);
      case Pending =>
        if role != Admin {
          reply := Line(Error, AccessDenied);
        } else {
          var items := CollectPending();
          reply := PendingData(items);
        }
      case Them(arg) =>
        reply := SubmitAdd(arg, username, at);
      case Sua(arg) =>
        reply := SubmitUpdate(arg, username, at);
      case Approve(arg) =>
        reply := Approve(role, arg);
      case Reject(arg) =>
        reply := Reject(role, arg);
      case Quit =>
        reply := Line(Success, Goodbye);
      case Unknown(name) =>
        reply := Line(Error, UnknownCommand(name));
    }

    /** The `while True` loop of `handle_client`, for a session of
        `username` with `userRole`: receive, stop on an empty line, reply,
        stop after `QUIT`. */
    method RequestLoop(inputs: seq<Received>, userRole: Role, username: string) returns (replies: seq<Reply>)
      requires Valid()
      modifies this
      ensures Valid()
      ensures (Snapshot(), replies) == Serve(old(Snapshot()), userRole, username, inputs)
    {
      ghost var final := Serve(Snapshot(), userRole, username, inputs);
      replies := [];
      var i := 0;
      while true
        invariant 0 <= i <= |inputs|
        invariant Valid()
        invariant Serve(Snapshot(), userRole, username, inputs[i..]).0 == final.0
        invariant replies + Serve(Snapshot(), userRole, username, inputs[i..]).1 == final.1
        decreases |inputs| - i
      {
        var data := if i < |inputs| then Strip(inputs[i].data) else "";
        if data == [] {
          ServeEnds(Snapshot(), userRole, username, inputs[i..]);
          assert replies + [] == replies;
          break;
        }
        ghost var before := Snapshot();
        var response := ProcessRequest(data, userRole, username, inputs[i].at);
        ServeAt(before, userRole, username, inputs, i, Snapshot(), response);
        AppendShift(replies, response, Serve(Snapshot(), userRole, username, inputs[i + 1..]).1);
        replies := replies + [response];
        i := i + 1;
        if Upper(data) == "QUIT" {
          assert replies + [] == replies;
          break;
        }
      }
    }

    /** `handle_client`: the replies sent on one connection, given the lines
        received on it. */
    method HandleClient(inputs: seq<Received>) returns (sent: seq<Reply>)
      requires Valid()
      modifies this
      ensures Valid()
      ensures (Snapshot(), sent) == Run(old(Snapshot()), users, inputs)
    {
      sent := [Greeting];
      var authData := LoginLine(inputs);
      var authResponse := Authenticate(users, authData);
      // `startswith("SUCCESS")` on the reply line: by `Reply.Wire`'s contract,
      // exactly a reply with the success status.
      var loggedIn := authResponse.status == Success;
      var username := "";
      var userRole := User;
      if loggedIn {
        username := Split(authData, '|')[1];
        userRole := users[username].role;
      }
      sent := sent + [authResponse];
      assert sent == [Greeting, authResponse];
      if !loggedIn {
        RunRejected(Snapshot(), users, inputs);
        return;
      }
      var replies := RequestLoop(inputs[1..], userRole, username);
      RunAccepted(old(Snapshot()), users, inputs, username, Snapshot(), replies);
      sent := sent + replies;
    }
  }
}
