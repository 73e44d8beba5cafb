/** What one client connection does (`handle_client`, server_auth.py:89-136),
    as a function of the lines the client sends: a greeting, one login
    attempt, and, after a successful login, one reply per request until an
    empty line, the end of the connection or `QUIT`. */
module Session {
  import opened Text
  import opened Protocol
  import opened DictionaryStore

  /** One `recv` on the connection: the text received, and the clock readings
      a submission handled for it would take. */
  datatype Received = Received(data: string, at: Clock)

  /** The session ends on a line that is empty once trimmed, which is also
      what a closed connection delivers. */
  predicate Ends(r: Received)
  {
    Strip(r.data) == []
  }

  /** The request, trimmed, is `QUIT` in any case (and nothing more). */
  predicate IsQuit(r: Received)
  {
    Upper(Strip(r.data)) == "QUIT"
  }

  /** How many requests the loop handles: every line up to the first one
      that ends the session (excluded) or is `QUIT` (included). */
  function Handled(inputs: seq<Received>): (n: nat)
    ensures n <= |inputs|
    ensures forall k :: 0 <= k < n ==> !Ends(inputs[k])
    ensures forall k :: 0 <= k < n - 1 ==> !IsQuit(inputs[k])
    ensures n < |inputs| ==> Ends(inputs[n]) || (n > 0 && IsQuit(inputs[n - 1]))
  {
    if inputs == [] || Ends(inputs[0]) then 0
    else if IsQuit(inputs[0]) then 1
    else 1 + Handled(inputs[1..])
  }

  /** The request loop, from store `s`, for a session of `user` with `role`:
      the store afterwards and the replies sent, one for each handled
      request, in order. */
  ghost function Serve(s: Store, role: Role, user: string, inputs: seq<Received>): (r: (Store, seq<Reply>))
    requires s.Valid()
    ensures r.0.Valid()
    ensures |r.1| == Handled(inputs)
    ensures role != Admin ==> r.0.dictionary == s.dictionary
    ensures s.dictionary.Keys <= r.0.dictionary.Keys
    decreases |inputs|
  {
    if inputs == [] || Ends(inputs[0]) then (s, [])
    else
      var step := Step(s, Strip(inputs[0].data), role, user, inputs[0].at);
      if IsQuit(inputs[0]) then (step.0, [step.1])
      else
        var rest := Serve(step.0, role, user, inputs[1..]);
        (rest.0, [step.1] + rest.1)
  }

  /** The login line: the first text received, trimmed; a connection closed
      before sending anything gives the empty line. */
  function LoginLine(inputs: seq<Received>): string
  {
    if inputs == [] then [] else Strip(inputs[0].data)
  }

  /** A whole connection from store `s`: the store afterwards and every reply
      sent. */
  ghost function Run(s: Store, users: map<string, Account>, inputs: seq<Received>): (r: (Store, seq<Reply>))
    requires s.Valid()
    ensures r.0.Valid()
  {
    var line := LoginLine(inputs);
    var auth := Authenticate(users, line);
    if auth.status != Success then (s, [Greeting, auth])
    else
      var user := LoginUser(users, line);
      var rest := Serve(s, users[user].role, user, inputs[1..]);
      (rest.0, [Greeting, auth] + rest.1)
  }

  /** The greeting and the login reply always go out; a refused login ends
      the connection before any request is handled; after an accepted login
      the request loop runs as that user, and a user session never changes
      the dictionary. */
  lemma RunSpec(s: Store, users: map<string, Account>, inputs: seq<Received>)
    requires s.Valid()
    ensures var r := Run(s, users, inputs);
      |r.1| >= 2 && r.1[0] == Greeting && r.1[1] == Authenticate(users, LoginLine(inputs))
    ensures var r := Run(s, users, inputs);
      !Accepted(users, LoginLine(inputs)) ==> r == (s, [Greeting, Authenticate(users, LoginLine(inputs))])
    ensures var r := Run(s, users, inputs);
      Accepted(users, LoginLine(inputs)) ==>
        r.1[2..] == Serve(s, LoginRole(users, LoginLine(inputs)), LoginUser(users, LoginLine(inputs)), inputs[1..]).1
    ensures var r := Run(s, users, inputs);
      Accepted(users, LoginLine(inputs)) && LoginRole(users, LoginLine(inputs)) == User ==> r.0.dictionary == s.dictionary
  {
  }

  /** One more request handled, when the line neither ends the session nor
      is `QUIT`. */
  lemma ServeMore(s: Store, role: Role, user: string, inputs: seq<Received>)
    requires s.Valid() && inputs != [] && !Ends(inputs[0]) && !IsQuit(inputs[0])
    ensures var step := Step(s, Strip(inputs[0].data), role, user, inputs[0].at);
      var rest := Serve(step.0, role, user, inputs[1..]);
      Serve(s, role, user, inputs) == (rest.0, [step.1] + rest.1)
  {
  }

  /** The last request handled, when the line is `QUIT`. */
  lemma ServeQuit(s: Store, role: Role, user: string, inputs: seq<Received>)
    requires s.Valid() && inputs != [] && !Ends(inputs[0]) && IsQuit(inputs[0])
    ensures var step := Step(s, Strip(inputs[0].data), role, user, inputs[0].at);
      Serve(s, role, user, inputs) == (step.0, [step.1])
  {
  }

  /** Any request whose command is `QUIT` gets the goodbye reply and changes
      nothing. */
  lemma StepQuit(s: Store, request: string, role: Role, user: string, at: Clock)
    requires s.Valid() && ParseRequest(request).Quit?
    ensures Step(s, request, role, user, at) == (s, Line(Success, Goodbye))
  {
  }

  /** `QUIT|x` is decoded as `QUIT`, whatever `x` is. */
  lemma QuitArgumentDecodes(x: string)
    ensures ParseRequest("QUIT" + "|" + x).Quit?
  {
    UpperOfUpper("QUIT");
    ParseCommandLine("QUIT", x);
  }

  /** `QUIT|x`, for any `x`, is a request of its own whose trimmed line still
      decodes as `QUIT` but does not read as the bare `QUIT` line. */
  lemma QuitArgumentLine(x: string, at: Clock)
    ensures var q := Received("QUIT" + "|" + x, at);
      !Ends(q) && !IsQuit(q) && ParseRequest(Strip(q.data)).Quit?
  {
    var kept := StripKeepsHead("QUIT|", x);
    assert "QUIT" + "|" + x == "QUIT|" + x;
    assert "QUIT|" + kept == "QUIT" + "|" + kept;
    QuitArgumentDecodes(kept);
    assert |Upper("QUIT|" + kept)| >= 5;
  }

  /** Only a line that is exactly `QUIT` ends the loop: `QUIT|x` is answered
      with the goodbye reply like `QUIT`, and the requests after it are still
      handled. */
  lemma QuitWithArgumentContinues(s: Store, role: Role, user: string, x: string, at: Clock, more: seq<Received>)
    requires s.Valid()
    ensures var rest := Serve(s, role, user, more);
      Serve(s, role, user, [Received("QUIT" + "|" + x, at)] + more) == (rest.0, [Line(Success, Goodbye)] + rest.1)
  {
    var q := Received("QUIT" + "|" + x, at);
    QuitArgumentLine(x, at);
    StepQuit(s, Strip(q.data), role, user, at);
    TailOfAppend([q], more);
    assert [q][1..] + more == more;
    ServeMore(s, role, user, [q] + more);
  }

  lemma TailOfAppend(a: seq<Received>, b: seq<Received>)
    requires a != []
    ensures a + b != [] && (a + b)[0] == a[0] && (a + b)[1..] == a[1..] + b
  {
  }

  /** Two inputs that start with the same request give the same result when
      their remainders do from the state that request leaves. */
  lemma ServeSameHead(s: Store, role: Role, user: string, inputs: seq<Received>, other: seq<Received>)
    requires s.Valid() && inputs != [] && other != [] && other[0] == inputs[0] && !Ends(inputs[0]) && !IsQuit(inputs[0])
    requires var step := Step(s, Strip(inputs[0].data), role, user, inputs[0].at);
      Serve(step.0, role, user, other[1..]) == Serve(step.0, role, user, inputs[1..])
    ensures Serve(s, role, user, other) == Serve(s, role, user, inputs)
  {
    ServeMore(s, role, user, inputs);
    ServeMore(s, role, user, other);
  }

  /** Two inputs that start with the same `QUIT` line give the same result. */
  lemma ServeSameQuit(s: Store, role: Role, user: string, inputs: seq<Received>, more: seq<Received>)
    requires s.Valid() && inputs != [] && !Ends(inputs[0]) && IsQuit(inputs[0])
    ensures Serve(s, role, user, inputs + more) == Serve(s, role, user, inputs)
  {
    var all := inputs + more;
    assert all[0] == inputs[0];
    ServeQuit(s, role, user, inputs);
    ServeQuit(s, role, user, all);
  }

  /** Lines sent after the one that ended the loop are never looked at:
      appending input behind a `QUIT` changes neither the store nor the
      replies. */
  lemma {:induction false} NothingAfterQuit(s: Store, role: Role, user: string, inputs: seq<Received>, more: seq<Received>)
    requires s.Valid() && Handled(inputs) == |inputs| && inputs != [] && IsQuit(inputs[|inputs| - 1])
    ensures Serve(s, role, user, inputs + more) == Serve(s, role, user, inputs)
    decreases |inputs|
  {
    if IsQuit(inputs[0]) {
      ServeSameQuit(s, role, user, inputs, more);
    } else {
      var step := Step(s, Strip(inputs[0].data), role, user, inputs[0].at);
      NothingAfterQuit(step.0, role, user, inputs[1..], more);
      TailOfAppend(inputs, more);
      ServeSameHead(s, role, user, inputs, inputs + more);
    }
  }
}
