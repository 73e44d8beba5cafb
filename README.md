# Dictionary server: request processing, login and sessions

A model of the request processor of the English–Vietnamese dictionary server
(`server_auth.py`). It is the `DictionaryServer` object without its socket,
thread and file plumbing, in three parts.

- **Login.** The server greets each client and checks one
  `LOGIN|user|password` line against a fixed user table. On success it
  answers `SUCCESS|<role>|...`; otherwise it answers `ERROR|...` and closes
  the connection.
- **Requests.** It answers `|`-separated requests that read or change two
  tables:
  - the dictionary (word → meaning);
  - the proposals waiting for an administrator (request id → `add` or
    `update` proposal).

  The commands are:
  - `TRA` looks a word up and `LIST` lists the dictionary in order of word.
  - `THEM` and `SUA` queue a proposal.
  - `PENDING`, `APPROVE` and `REJECT` are for the `admin` role only. `APPROVE`
    applies a proposal and drops it; `REJECT` drops it.
  - `QUIT` says goodbye, and any other command is answered with an error.
- **Session.** A session handles requests until the client sends an empty
  line, closes the connection or sends `QUIT`.

Modules:

- `Text`: the parts of Python's `str` the server relies on.
  - `strip()` with Python's white-space set;
  - `lower()` and `upper()`;
  - `split(sep)` and `split(sep, 1)`;
  - the string order used by `sorted`.
- `Protocol`: the user table, `authenticate`, reply lines and the decoding
  of a request line into a command and its argument. A reply line is a
  status tag and a `Message`. Each message the server can send is a
  constructor of `Message`, and `Message.Text` gives its exact wording.
  `Reply.Wire` puts the two together as `STATUS|text`.
- `DictionaryStore`: the pure specification.
  - A `Store` value holds the dictionary, the pending proposals and the
    insertion order of the pending ids. Python iterates a dict in insertion
    order, and `PENDING` lists proposals in that order.
  - For each branch of `process_request` there is a function returning the
    new store and the reply. `Step` dispatches a whole request line.
  - Lemmas cover composed behaviour:
    - submitting then approving;
    - submitting then rejecting;
    - approving twice;
    - two submissions in the same second.
- `Session`: a connection as a function of the lines it receives.
  - `Handled` is how many requests are answered.
  - `Serve` is the request loop.
  - `Run` is the whole connection.
- `Server`: class `DictionaryServer`.
  - Its `dictionary`, `pending` and `pendingOrder` fields are updated in
    place.
  - `ProcessRequest`, the `THEM`/`SUA`/`APPROVE`/`REJECT` methods, the
    `LIST` and `PENDING` loops, `RequestLoop` and `HandleClient` are each
    proved to produce exactly the state and replies of the matching
    `DictionaryStore` or `Session` function.

Each `with lock:` block is treated as one atomic step, and requests are
handled one after another.

Behaviour of the source that the model makes explicit:

- **`QUIT` must be the whole line.** Only a line that is exactly `QUIT`
  (after trimming, in any case) ends a session. `QUIT|x` is decoded as the
  `QUIT` command and answered `SUCCESS|Goodbye!`, but the session goes on
  (`QuitWithArgumentContinues`).
- **Ids collide within a second.** A request id is the word, `_` and a
  timestamp with one-second resolution. A second `THEM` for the same word in
  the same second replaces the first proposal silently
  (`SameSecondOverwrites`).
- **Approval overwrites.** `APPROVE` of an `update` sets the proposed meaning
  whatever the word's meaning is by then. `APPROVE` of an `add` sets the
  meaning even if the word was added in the meantime.

## Model

| member | source | states |
|---|---|---|
| Text.Strip | server_auth.py:168 | `strip()` leaves no white space at either end and never lengthens |
| Text.StripEmpty | server_auth.py:117-119 | `strip()` gives the empty string exactly for a line of white space, so such a line ends a session |
| Text.StripInside | server_auth.py:168 | every character `strip()` keeps comes from its input |
| Text.StripTrimmed | server_auth.py:325 | a string with no white space at either end is its own `strip()` |
| Text.StripKeepsHead | server_auth.py:117 | `strip()` keeps a head that starts and ends with non-white-space characters; only the rest can shrink |
| Text.StripSurrounded | server_auth.py:168 | `strip()` removes exactly the white space around a trimmed string and nothing else |
| Text.SplitFirst | server_auth.py:158 | `split(sep, 1)` gives the whole string when `sep` does not occur, otherwise a separator-free head and the tail that rebuild the input |
| Text.SplitFirstOf | server_auth.py:204 | splitting `a + sep + b` once, with no `sep` in `a`, gives back `a` and `b` |
| Text.SplitParts | server_auth.py:141 | the parts of `split(sep)` hold no separator and join back, with it, to the input |
| Text.SplitJoin | server_auth.py:141 | `split` undoes `join` when no part contains the separator |
| Text.SplitThree | server_auth.py:141-142 | a line of three separator-free fields splits into exactly those three |
| Text.LowerAt | server_auth.py:168 | `lower()` maps each character on its own and leaves no upper-case ASCII letter |
| Text.UpperAt | server_auth.py:160 | `upper()` maps each character on its own and leaves no lower-case ASCII letter |
| Text.UpperOfUpper | server_auth.py:160 | a name already in upper case is unchanged by `upper()` |
| Text.LowerOfLower | server_auth.py:168 | a word already in lower case is unchanged by `lower()` |
| Text.LessIrreflexive | server_auth.py:181 | no string sorts before itself |
| Text.LessAsymmetric | server_auth.py:181 | two strings never sort before each other |
| Text.LessTransitive | server_auth.py:181 | the order of `sorted` on strings is transitive |
| Text.LessTotal | server_auth.py:181 | any two different strings are ordered one way or the other |
| Protocol.Reply.Wire | server_auth.py:106-113 | a reply line starts with its status tag, and it starts with `SUCCESS` exactly when its status is success (so `startswith("SUCCESS")` is a test of the status) |
| Protocol.TaggedSuccess | server_auth.py:106 | no status tag but `SUCCESS` makes a line that starts with `SUCCESS` |
| Protocol.Authenticate | server_auth.py:138-155 | success exactly for a line of three `\|`-parts whose first is `LOGIN` in any case, whose second is a known user and whose third is that user's password; every other line gets an error, telling a malformed line from bad credentials, and the success reply names the user's role |
| Protocol.AuthenticateReportsRole | server_auth.py:148-150 | the success line is `SUCCESS\|<role>\|Login successful as <role>` with the logged-in user's role |
| Protocol.AcceptedExactly | server_auth.py:141-148 | the credential check restated without `split`: accepted exactly when the line is `LOGIN\|u\|p` (no `\|` inside a field) for a known user `u` with password `p`; the session then belongs to `u` |
| Protocol.LoginUser | server_auth.py:107-108 | the user name taken from an accepted login line is in the user table, so the role lookup cannot fail |
| Protocol.ParseRequest | server_auth.py:158-160 | a command that takes an argument has one exactly when the line contains `\|`; an unknown command name holds no `\|` |
| Protocol.ParseCommandLine | server_auth.py:158-160 | decoding undoes `verb\|argument`: the verb chooses the command in any case, and the whole argument comes back, further `\|` included |
| Protocol.ParseSubmission | server_auth.py:200-209 | no argument or no `:` is the usage error; otherwise the word (lower case, trimmed) and the meaning (trimmed) are both non-empty, or it is the empty-field error |
| Protocol.ParseSubmissionOf | server_auth.py:204-206 | `word:meaning` splits at the first `:` and decodes to the normalised word and meaning |
| DictionaryStore.Put | server_auth.py:218 | assigning a pending id adds it to the key order once, keeping every other id and the order free of repeats; the old order is a prefix of the new one, so a new id goes last and an id already present keeps its place |
| DictionaryStore.Remove | server_auth.py:343 | deleting a pending id removes exactly that id from the key order, keeps it free of repeats, and leaves a subsequence of the old order, so the other ids keep their relative order |
| DictionaryStore.RemovePut | server_auth.py:218-363 | deleting a freshly inserted id gives back the previous key order |
| DictionaryStore.Translate | server_auth.py:165-174 | no argument is the usage error; otherwise success with `word: meaning` exactly when the lower-cased, trimmed word is in the dictionary, and not-found otherwise |
| DictionaryStore.TranslateNormal | server_auth.py:168-172 | `TRA` of a word already lower-case and trimmed finds exactly that word |
| DictionaryStore.LeastExists | server_auth.py:181 | every non-empty set of words has a first word in sorted order |
| DictionaryStore.LeastUnique | server_auth.py:181 | that first word is unique |
| DictionaryStore.ListingOf | server_auth.py:181 | listing a set of words gives one entry per word with its meaning, in strictly increasing order |
| DictionaryStore.ListingCons | server_auth.py:181 | the least word followed by a listing of the others is a listing of all |
| DictionaryStore.ListingCovers | server_auth.py:181 | no word of the set is missing from its listing |
| DictionaryStore.ListingSpec | server_auth.py:177-183 | the `LIST` payload has every dictionary entry exactly once, with its meaning, in increasing order of word |
| DictionaryStore.PendingItems | server_auth.py:188-194 | the `PENDING` payload lists every pending id exactly once with its proposal, item `i` being the `i`-th id in insertion order |
| DictionaryStore.ListPending | server_auth.py:185-196 | `PENDING` is refused with `Access denied` for a non-admin and otherwise returns the full pending list |
| DictionaryStore.ProposeAdd | server_auth.py:199-230 | success exactly when the argument decodes to a word not in the dictionary; every failure is an error that changes nothing, with the message of its case; success sets only `pending[word_stamp]` to the `add` proposal and never touches the dictionary |
| DictionaryStore.ProposeUpdate | server_auth.py:233-266 | as `THEM`, but for a word already in the dictionary, and the proposal records the word's current meaning as the old meaning |
| DictionaryStore.ApproveRequest | server_auth.py:318-346 | a non-admin is refused and nothing changes; no argument or an unknown id is an error that changes nothing; a pending id gets its proposed meaning written to the dictionary and only that id dropped |
| DictionaryStore.RejectRequest | server_auth.py:349-366 | the same refusals as `APPROVE`; a pending id is dropped with the dictionary left as it was |
| DictionaryStore.Step | server_auth.py:157-373 | an error reply changes nothing; `TRA`, `LIST`, `PENDING`, `QUIT` and unknown commands change nothing; a non-admin cannot use `PENDING`/`APPROVE`/`REJECT` or change the dictionary; dictionary words are never removed; the exact `QUIT` and unknown-command replies |
| DictionaryStore.ApproveOnce | server_auth.py:327-329 | approving the same id a second time answers not-found and changes nothing |
| DictionaryStore.RequestIdTrimmed | server_auth.py:325 | the id reported for a submission survives the `strip()` that `APPROVE`/`REJECT` apply to their argument |
| DictionaryStore.SubmitThenApprove | server_auth.py:216-346 | `THEM` followed by `APPROVE` of its id adds the word with its meaning and leaves no trace of the proposal |
| DictionaryStore.SubmitThenReject | server_auth.py:216-366 | `THEM` with a fresh id followed by `REJECT` of that id restores the state exactly |
| DictionaryStore.SameSecondOverwrites | server_auth.py:217-218 | two `THEM` for one word in one clock second leave only the second proposal, in the place of the first |
| Session.Handled | server_auth.py:116-130 | the number of requests answered: none of them is an empty line, none but the last is `QUIT`, and the loop stopped at an empty line, at the end of input or after a `QUIT` |
| Session.Serve | server_auth.py:116-130 | one reply per handled request; a user session never changes the dictionary; words are never removed |
| Session.RunSpec | server_auth.py:89-136 | greeting and login reply always go out; a refused login sends nothing more and changes nothing; an accepted login is followed by the request loop as that user and role, and a `user` session leaves the dictionary as it was |
| Session.ServeMore | server_auth.py:116-127 | a line that is neither empty nor `QUIT` is answered and the loop goes on |
| Session.ServeQuit | server_auth.py:125-130 | a `QUIT` line is answered and ends the loop |
| Session.StepQuit | server_auth.py:369-370 | a `QUIT` command is answered `SUCCESS\|Goodbye!` and changes nothing |
| Session.QuitArgumentDecodes | server_auth.py:158-160 | `QUIT\|x` decodes as the `QUIT` command |
| Session.QuitArgumentLine | server_auth.py:117-129 | for any `x`, `QUIT\|x` is neither an empty line nor the bare `QUIT` that ends the loop, and its trimmed line still decodes as `QUIT` |
| Session.QuitWithArgumentContinues | server_auth.py:125-130 | for any `x`, `QUIT\|x` gets the goodbye reply and the following requests are still handled |
| Session.NothingAfterQuit | server_auth.py:129-130 | input after the `QUIT` that ended the loop changes neither the state nor the replies |
| Server.ServeEnds | server_auth.py:117-120 | an empty line or the end of input ends the loop with no reply and no change |
| Server.ServeAt | server_auth.py:116-130 | one turn of the loop on the line at a given position |
| Server.RunAccepted | server_auth.py:106-116 | after an accepted login the reply sequence is the greeting, the login reply, then the request loop's replies |
| Server.RunRejected | server_auth.py:111-114 | a refused login sends the greeting and the error only and changes nothing |
| Server.ListingOfLeast | server_auth.py:181 | a listing starts with the least word, followed by the listing of the others |
| Server.SortedEntries | server_auth.py:181 | building the list one least word at a time gives exactly the sorted listing |
| Server.DictionaryServer.constructor | server_auth.py:8-46 | a new server has the seed dictionary, no pending proposals and the three fixed accounts |
| Server.DictionaryServer.CollectPending | server_auth.py:190-194 | the loop over the pending proposals yields exactly the `PENDING` payload |
| Server.DictionaryServer.SubmitAdd | server_auth.py:199-230 | the in-place `THEM` leaves the fields and returns the reply that `ProposeAdd` specifies |
| Server.DictionaryServer.SubmitUpdate | server_auth.py:233-266 | the in-place `SUA` matches `ProposeUpdate` |
| Server.DictionaryServer.Approve | server_auth.py:318-346 | the in-place `APPROVE` matches `ApproveRequest` |
| Server.DictionaryServer.Reject | server_auth.py:349-366 | the in-place `REJECT` matches `RejectRequest` |
| Server.DictionaryServer.ProcessRequest | server_auth.py:157-373 | the in-place `process_request` matches `Step` |
| Server.DictionaryServer.RequestLoop | server_auth.py:116-130 | the `while True` loop's replies and final fields are those of `Serve` |
| Server.DictionaryServer.HandleClient | server_auth.py:89-136 | the replies sent on a connection and the final fields are those of `Run` |

## Left out

- Sockets: `send`, `recv`, their 1024- and 4096-byte limits and UTF-8
  decoding. A connection is the sequence of texts received, and a closed
  connection is the empty text. The `start()` accept loop is not modelled.
- Threads and locks: each `with lock:` block is one atomic step, and
  requests are handled one at a time. `THEM` checks the dictionary and then
  queues under a second lock. Two clients interleaving between those two
  steps are not modelled.
- Files: `load_data`, `save_dictionary` and `save_pending` are left out, and
  their results are ignored by every caller. A new server starts from the
  seed dictionary with no pending proposal. Dictionaries or proposals loaded
  from disk are not modelled, so a pending id's place in the key order is
  the order of submission.
- Clock: `datetime.now()` is an input. `Clock` carries the id stamp and the
  stored timestamp, read twice by the source.
- JSON: the `LIST_DATA` and `PENDING_DATA` payloads are sequences of entries
  and items, not JSON text.
- Dead branches: the second `LIST` and `PENDING` branches of
  `process_request` (server_auth.py:269-315) can never be reached and are
  not modelled.
- Unreachable errors: a few `except` clauses cannot fire on the modelled
  inputs:
  - the `ValueError` handlers of `THEM`/`SUA`;
  - the exception path of `authenticate`;
  - `len(parts) < 1`.

  The handlers of `handle_client` only catch socket and UTF-8 decoding
  failures (invalid UTF-8, or a character cut at the `recv` limit, ends the
  session through the `except Exception` at server_auth.py:132); both are
  left out above.
- Logging: the `print` calls and the client counter are left out.
- Client: `client_gui.py` is not part of this model.
- Text.Lower: maps only the ASCII letters; Python's full Unicode case
  mapping is not modelled.
- Text.Upper: the same ASCII-only limit applies. A non-ASCII line that
  Python upper-cases to `QUIT` or `LOGIN` is therefore not recognised by the
  model.
