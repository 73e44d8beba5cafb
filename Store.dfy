/** The shared state of the dictionary server (the word dictionary and the
    proposals waiting for review) and, as functions on that state, what each
    branch of `process_request` replies and how it changes the state
    (server_auth.py:157-373). Each `with lock:` block is taken as one atomic
    step. */
module DictionaryStore {
  import opened Text
  import opened Protocol

  /** The two readings of the clock a submission makes: the
      `%Y%m%d%H%M%S` stamp that goes into the request id and the
      `%Y-%m-%d %H:%M:%S` stamp stored in the proposal. */
  datatype Clock = Clock(idStamp: string, timestamp: string)

  predicate NoDup(s: seq<string>)
  {
    forall i, j :: 0 <= i < j < |s| ==> s[i] != s[j]
  }

  /** The state the server's request handling works on. `order` is the
      insertion order of the keys of `pending` (the order Python iterates a
      dict in, and so the order `PENDING` lists proposals in). */
  datatype Store = Store(dictionary: map<string, string>, pending: map<string, Proposal>, order: seq<string>)
  {
    ghost predicate Valid()
    {
      NoDup(order) && forall id :: id in pending <==> id in order
    }
  }

  /** The dictionary a server starts with when it has no dictionary file. */
  const Seed: map<string, string> := map[
    "hello" := "xin chào",
    "world" := "thế giới",
    "python" := "ngôn ngữ lập trình Python",
    "computer" := "máy tính",
    "network" := "mạng máy tính"
  ]

  /** `pending[id] = ...` seen on the key order: a new id goes last, an id
      already present keeps its place. */
  function Put(order: seq<string>, id: string): (r: seq<string>)
    ensures NoDup(order) ==> NoDup(r)
    ensures forall x :: x in r <==> x in order || x == id
    ensures order <= r && |r| <= |order| + 1
  {
    if id in order then order else order + [id]
  }

  /** `r` is `s` with some elements left out: what is left keeps its order. */
  predicate Subsequence(r: seq<string>, s: seq<string>)
  {
    if s == [] then r == []
    else (r != [] && r[0] == s[0] && Subsequence(r[1..], s[1..])) || Subsequence(r, s[1..])
  }

  /** `del pending[id]` seen on the key order: the other ids keep their order. */
  function Remove(order: seq<string>, id: string): (r: seq<string>)
    ensures forall x :: x in r <==> x in order && x != id
    ensures NoDup(order) ==> NoDup(r)
    ensures Subsequence(r, order)
  {
    if order == [] then []
    else
      var rest := Remove(order[1..], id);
      assert NoDup(order) ==> order[0] !in order[1..];
      if order[0] == id then rest
      else
        assert ([order[0]] + rest)[1..] == rest;
        [order[0]] + rest
  }

  /** The id of a submitted proposal: the word, `_` and the clock stamp. Two
      submissions for one word within the same second get the same id. */
  function RequestId(word: string, at: Clock): string
  {
    word + "_" + at.idStamp
  }

  /** `TRA|word`: the word is lower-cased and trimmed, then looked up. */
  function Translate(dictionary: map<string, string>, arg: Option<string>): (reply: Reply)
    ensures reply.Line?
    ensures arg.None? ==> reply == Line(Error, TraUsage)
    ensures arg.Some? ==>
      var word := Strip(Lower(arg.value));
      && (word in dictionary <==> reply.status == Success)
      && (word in dictionary ==> reply.message == Found(word, dictionary[word]))
      && (word !in dictionary ==> reply == Line(NotFound, NotInDictionary(word)))
  {
    if arg.None? then Line(Error, TraUsage)
    else
      var word := Strip(Lower(arg.value));
      if word in dictionary then Line(Success, Found(word, dictionary[word]))
      else Line(NotFound, NotInDictionary(word))
  }

  /** `w` comes first among `keys` in the order of `sorted`. */
  predicate IsLeast(w: string, keys: set<string>)
  {
    w in keys && forall v :: v in keys && v != w ==> Less(w, v)
  }

  /** Every non-empty set of words has a first one. */
  lemma {:induction false} LeastExists(keys: set<string>)
    requires keys != {}
    ensures exists w :: IsLeast(w, keys)
  {
    var x :| x in keys;
    if keys == {x} {
      assert IsLeast(x, keys);
    } else {
      LeastExists(keys - {x});
      var m :| IsLeast(m, keys - {x});
      LessTotal(x, m);
      if Less(x, m) {
        forall v | v in keys && v != x
          ensures Less(x, v)
        {
          if v != m {
            LessTransitive(x, m, v);
          }
        }
        assert IsLeast(x, keys);
      } else {
        assert IsLeast(m, keys);
      }
    }
  }

  /** ... and only one. */
  lemma LeastUnique(w: string, v: string, keys: set<string>)
    requires IsLeast(w, keys) && IsLeast(v, keys)
    ensures w == v
  {
    if w != v {
      LessAsymmetric(w, v);
    }
  }

  /** The entries of `dictionary` whose words are in `keys`, in increasing
      order of word: the least word first, then the listing of the others. */
  ghost function ListingOf(dictionary: map<string, string>, keys: set<string>): (es: seq<Entry>)
    requires keys <= dictionary.Keys
    ensures |es| == |keys|
    ensures forall i :: 0 <= i < |es| ==> es[i].word in keys && es[i].meaning == dictionary[es[i].word]
    ensures forall i, j :: 0 <= i < j < |es| ==> Less(es[i].word, es[j].word)
    decreases keys
  {
    if keys == {} then []
    else
      LeastExists(keys);
      var w :| IsLeast(w, keys);
      var rest := ListingOf(dictionary, keys - {w});
      ListingCons(dictionary, keys, w, rest);
      [Entry(w, dictionary[w])] + rest
  }

  /** Putting the least word in front of a listing of the other words gives
      a listing of all of them. */
  lemma ListingCons(dictionary: map<string, string>, keys: set<string>, w: string, rest: seq<Entry>)
    requires keys <= dictionary.Keys && IsLeast(w, keys)
    requires |rest| == |keys - {w}|
    requires forall i :: 0 <= i < |rest| ==> rest[i].word in keys - {w} && rest[i].meaning == dictionary[rest[i].word]
    requires forall i, j :: 0 <= i < j < |rest| ==> Less(rest[i].word, rest[j].word)
    ensures var es := [Entry(w, dictionary[w])] + rest;
      && |es| == |keys|
      && (forall i :: 0 <= i < |es| ==> es[i].word in keys && es[i].meaning == dictionary[es[i].word])
      && (forall i, j :: 0 <= i < j < |es| ==> Less(es[i].word, es[j].word))
  {
    var es := [Entry(w, dictionary[w])] + rest;
    assert forall i :: 1 <= i < |es| ==> es[i] == rest[i - 1];
  }

  /** The words of a listing. */
  function Words(es: seq<Entry>): (ws: seq<string>)
    ensures |ws| == |es| && forall i :: 0 <= i < |es| ==> ws[i] == es[i].word
  {
    seq(|es|, i requires 0 <= i < |es| => es[i].word)
  }

  /** No word of `keys` is missing from its listing: the listed words are
      distinct and all in `keys`, and there are as many of them as keys. */
  lemma ListingCovers(dictionary: map<string, string>, keys: set<string>)
    requires keys <= dictionary.Keys
    ensures var es := ListingOf(dictionary, keys);
      forall w :: w in keys ==> exists i :: 0 <= i < |es| && es[i].word == w
  {
    var es := ListingOf(dictionary, keys);
    var ws := Words(es);
    assert NoDup(ws) by {
      forall i, j | 0 <= i < j < |ws|
        ensures ws[i] != ws[j]
      {
        LessIrreflexive(ws[i]);
      }
    }
    DistinctCard(ws);
    var listed := set i | 0 <= i < |ws| :: ws[i];
    assert listed <= keys;
    SubsetSameSize(listed, keys);
    forall w | w in keys
      ensures exists i :: 0 <= i < |es| && es[i].word == w
    {
      assert w in listed;
      var i :| 0 <= i < |ws| && ws[i] == w;
      assert es[i].word == w;
    }
    assert es == ListingOf(dictionary, keys);
  }

  /** A subset as large as the whole set is the whole set. */
  lemma {:induction false} SubsetSameSize(a: set<string>, b: set<string>)
    requires a <= b && |a| == |b|
    ensures a == b
  {
    if a != b {
      assert !(b <= a);
      var x :| x in b && x !in a;
      assert a <= b - {x};
      SubsetSize(a, b - {x});
    }
  }

  lemma {:induction false} SubsetSize(a: set<string>, b: set<string>)
    requires a <= b
    ensures |a| <= |b|
    decreases b
  {
    if a != {} {
      var x :| x in a;
      SubsetSize(a - {x}, b - {x});
    }
  }

  /** `sorted(dictionary.items())` as the `LIST` reply carries it. */
  ghost function Listing(dictionary: map<string, string>): seq<Entry>
  {
    ListingOf(dictionary, dictionary.Keys)
  }

  /** The `LIST` payload holds every entry of the dictionary exactly once,
      with its meaning, in increasing order of word. */
  lemma ListingSpec(dictionary: map<string, string>)
    ensures var es := Listing(dictionary);
      && |es| == |dictionary|
      && (forall i :: 0 <= i < |es| ==> es[i].word in dictionary && es[i].meaning == dictionary[es[i].word])
      && (forall w :: w in dictionary ==> exists i :: 0 <= i < |es| && es[i].word == w)
      && (forall i, j :: 0 <= i < j < |es| ==> Less(es[i].word, es[j].word))
  {
    ListingCovers(dictionary, dictionary.Keys);
  }

  /** The proposals as the `PENDING` reply lists them: every pending id once,
      with its proposal, in insertion order. */
  function PendingItems(s: Store): (items: seq<Item>)
    requires s.Valid()
    ensures |items| == |s.pending|
    ensures forall i :: 0 <= i < |items| ==> items[i].id in s.pending && items[i].request == s.pending[items[i].id]
    ensures forall id :: id in s.pending ==> exists i :: 0 <= i < |items| && items[i].id == id
    ensures forall i, j :: 0 <= i < j < |items| ==> items[i].id != items[j].id
    ensures |items| == |s.order| && forall i :: 0 <= i < |items| ==> items[i].id == s.order[i]
  {
    var items := seq(|s.order|, i requires 0 <= i < |s.order| => Item(s.order[i], s.pending[s.order[i]]));
    assert forall id :: id in s.pending ==> exists i :: 0 <= i < |items| && items[i].id == id by {
      forall id | id in s.pending
        ensures exists i :: 0 <= i < |items| && items[i].id == id
      {
        var k :| 0 <= k < |s.order| && s.order[k] == id;
        assert items[k].id == id;
      }
    }
    OrderCount(s);
    items
  }

  /** The key order lists each pending id once, so it is as long as `pending`. */
  lemma OrderCount(s: Store)
    requires s.Valid()
    ensures |s.order| == |s.pending|
  {
    DistinctCard(s.order);
    assert (set i | 0 <= i < |s.order| :: s.order[i]) == s.pending.Keys;
  }

  /** A sequence without repeats has as many distinct elements as positions. */
  lemma {:induction false} DistinctCard(xs: seq<string>)
    requires NoDup(xs)
    ensures |set i | 0 <= i < |xs| :: xs[i]| == |xs|
  {
    if xs != [] {
      var tail := xs[1..];
      assert NoDup(tail);
      DistinctCard(tail);
      var all := set i | 0 <= i < |xs| :: xs[i];
      var rest := set i | 0 <= i < |tail| :: tail[i];
      assert all == rest + {xs[0]} by {
        forall x | x in all
          ensures x in rest + {xs[0]}
        {
          var i :| 0 <= i < |xs| && xs[i] == x;
          if i > 0 {
            assert tail[i - 1] == x;
          }
        }
      }
      assert xs[0] !in rest;
    }
  }

  /** `PENDING`: admin only. */
  function ListPending(s: Store, role: Role): (reply: Reply)
    requires s.Valid()
    ensures role == Admin ==> reply.PendingData? && reply.items == PendingItems(s)
    ensures role != Admin ==> reply == Line(Error, AccessDenied)
  {
    if role != Admin then Line(Error, AccessDenied) else PendingData(PendingItems(s))
  }

  /** `THEM|word:meaning`: queue an `add` proposal for a word not yet in the
      dictionary. Every failure leaves the state as it was; a success leaves
      the dictionary as it was and sets exactly one pending id, overwriting a
      proposal that already had it. */
  function ProposeAdd(s: Store, arg: Option<string>, username: string, at: Clock): (r: (Store, Reply))
    requires s.Valid()
    ensures r.0.Valid() && r.0.dictionary == s.dictionary
    ensures var f := ParseSubmission(arg);
      && r.1.Line?
      && (r.1.status == Success <==> f.WordMeaning? && f.word !in s.dictionary)
      && (r.1.status != Success ==> r.1.status == Error && r.0 == s)
      && (f.NoColon? ==> r.1.message == ThemUsage)
      && (f.EmptyField? ==> r.1.message == EmptyWordOrMeaning)
      && (f.WordMeaning? && f.word in s.dictionary ==> r.1.message == AlreadyExists(f.word))
    ensures r.1.status == Success ==>
      var f := ParseSubmission(arg);
      var id := RequestId(f.word, at);
      && r.0.pending == s.pending[id := Add(f.word, f.meaning, username, at.timestamp)]
      && r.0.order == Put(s.order, id)
  {
    match ParseSubmission(arg)
    case NoColon => (s, Line(Error, ThemUsage))
    case EmptyField => (s, Line(Error, EmptyWordOrMeaning))
    case WordMeaning(word, meaning) =>
      if word in s.dictionary then
        (s, Line(Error, AlreadyExists(word)))
      else
        var id := RequestId(word, at);
        (s.(pending := s.pending[id := Add(word, meaning, username, at.timestamp)], order := Put(s.order, id)),
         Line(Success, AddQueued(word, meaning)))
  }

  /** `SUA|word:meaning`: queue an `update` proposal for a word in the
      dictionary, recording its current meaning. Failures and successes
      change the state as for `THEM`. */
  function ProposeUpdate(s: Store, arg: Option<string>, username: string, at: Clock): (r: (Store, Reply))
    requires s.Valid()
    ensures r.0.Valid() && r.0.dictionary == s.dictionary
    ensures var f := ParseSubmission(arg);
      && r.1.Line?
      && (r.1.status == Success <==> f.WordMeaning? && f.word in s.dictionary)
      && (r.1.status != Success ==> r.1.status == Error && r.0 == s)
      && (f.NoColon? ==> r.1.message == SuaUsage)
      && (f.EmptyField? ==> r.1.message == EmptyWordOrMeaning)
      && (f.WordMeaning? && f.word !in s.dictionary ==> r.1.message == NoSuchWord(f.word))
    ensures r.1.status == Success ==>
      var f := ParseSubmission(arg);
      var id := RequestId(f.word, at);
      && r.0.pending == s.pending[id := Update(f.word, s.dictionary[f.word], f.meaning, username, at.timestamp)]
      && r.0.order == Put(s.order, id)
  {
    match ParseSubmission(arg)
    case NoColon => (s, Line(Error, SuaUsage))
    case EmptyField => (s, Line(Error, EmptyWordOrMeaning))
    case WordMeaning(word, meaning) =>
      if word !in s.dictionary then
        (s, Line(Error, NoSuchWord(word)))
      else
        var oldMeaning := s.dictionary[word];
        var id := RequestId(word, at);
        (s.(pending := s.pending[id := Update(word, oldMeaning, meaning, username, at.timestamp)], order := Put(s.order, id)),
         Line(Success, UpdateQueued(word, oldMeaning, meaning)))
  }

  /** `APPROVE|id`: admin only. A pending proposal is applied (its word gets
      the proposed meaning, whatever the recorded old meaning) and removed;
      nothing else changes. */
  function ApproveRequest(s: Store, role: Role, arg: Option<string>): (r: (Store, Reply))
    requires s.Valid()
    ensures r.0.Valid()
    ensures role != Admin ==> r == (s, Line(Error, AdminOnly))
    ensures role == Admin && arg.None? ==> r == (s, Line(Error, ApproveUsage))
    ensures role == Admin && arg.Some? && Strip(arg.value) !in s.pending ==>
      r == (s, Line(Error, NoSuchRequest(Strip(arg.value))))
    ensures role == Admin && arg.Some? && Strip(arg.value) in s.pending ==>
      var id := Strip(arg.value);
      var req := s.pending[id];
      && r.0.dictionary == s.dictionary[req.word := req.Proposed()]
      && r.0.pending == s.pending - {id}
      && r.0.order == Remove(s.order, id)
      && r.1 == Line(Success, Approved(req))
  {
    if role != Admin then (s, Line(Error, AdminOnly))
    else if arg.None? then (s, Line(Error, ApproveUsage))
    else
      var id := Strip(arg.value);
      if id !in s.pending then (s, Line(Error, NoSuchRequest(id)))
      else
        var req := s.pending[id];
        (Store(s.dictionary[req.word := req.Proposed()], s.pending - {id}, Remove(s.order, id)),
         Line(Success, Approved(req)))
  }

  /** `REJECT|id`: admin only. A pending proposal is removed and the
      dictionary is left as it was. */
  function RejectRequest(s: Store, role: Role, arg: Option<string>): (r: (Store, Reply))
    requires s.Valid()
    ensures r.0.Valid() && r.0.dictionary == s.dictionary
    ensures role != Admin ==> r == (s, Line(Error, AdminOnly))
    ensures role == Admin && arg.None? ==> r == (s, Line(Error, RejectUsage))
    ensures role == Admin && arg.Some? && Strip(arg.value) !in s.pending ==>
      r == (s, Line(Error, NoSuchRequest(Strip(arg.value))))
    ensures role == Admin && arg.Some? && Strip(arg.value) in s.pending ==>
      var id := Strip(arg.value);
      && r.0.pending == s.pending - {id}
      && r.0.order == Remove(s.order, id)
      && r.1 == Line(Success, Rejected(s.pending[id].word))
  {
    if role != Admin then (s, Line(Error, AdminOnly))
    else if arg.None? then (s, Line(Error, RejectUsage))
    else
      var id := Strip(arg.value);
      if id !in s.pending then (s, Line(Error, NoSuchRequest(id)))
      else
        (s.(pending := s.pending - {id}, order := Remove(s.order, id)),
         Line(Success, Rejected(s.pending[id].word)))
  }

  /** `process_request(request, role, username)`: the reply and the new state. */
  ghost function Step(s: Store, request: string, role: Role, username: string, at: Clock): (r: (Store, Reply))
    requires s.Valid()
    ensures r.0.Valid()
    ensures s.dictionary.Keys <= r.0.dictionary.Keys
    ensures r.1.Line? && r.1.status == Error ==> r.0 == s
    ensures var c := ParseRequest(request);
      (c.Tra? || c.List? || c.Pending? || c.Quit? || c.Unknown?) ==> r.0 == s
    ensures var c := ParseRequest(request);
      role != Admin && c.Pending? ==> r == (s, Line(Error, AccessDenied))
    ensures var c := ParseRequest(request);
      role != Admin && (c.Approve? || c.Reject?) ==> r == (s, Line(Error, AdminOnly))
    ensures role != Admin ==> r.0.dictionary == s.dictionary
    ensures var c := ParseRequest(request);
      c.Unknown? ==> r.1 == Line(Error, UnknownCommand(c.name))
    ensures ParseRequest(request).Quit? ==> r.1 == Line(Success, Goodbye)
  {
    match ParseRequest(request)
    case Tra(arg) => (s, Translate(s.dictionary, arg))
    case List => (s, ListData(Listing(s.dictionary)))
    case Pending => (s, ListPending(s, role))
    case Them(arg) => ProposeAdd(s, arg, username, at)
    case Sua(arg) => ProposeUpdate(s, arg, username, at)
    case Approve(arg) => ApproveRequest(s, role, arg)
    case Reject(arg) => RejectRequest(s, role, arg)
    case Quit => (s, Line(Success, Goodbye))
    case Unknown(name) => (s, Line(Error, UnknownCommand(name)))
  }

  /** A proposal can be approved only once: approving the same id again
      answers that the request is not found and changes nothing. */
  lemma ApproveOnce(s: Store, arg: Option<string>)
    requires s.Valid() && arg.Some? && Strip(arg.value) in s.pending
    ensures var after := ApproveRequest(s, Admin, arg).0;
      ApproveRequest(after, Admin, arg) == (after, Line(Error, NoSuchRequest(Strip(arg.value))))
  {
  }

  /** Removing a key that was just appended gives the old order back. */
  lemma {:induction false} RemovePut(order: seq<string>, id: string)
    requires id !in order
    ensures Remove(Put(order, id), id) == order
  {
    if order != [] {
      assert (order + [id])[1..] == order[1..] + [id];
      RemovePut(order[1..], id);
    }
  }

  /** A request id is its own trimmed form when the word and the stamp are. */
  lemma RequestIdTrimmed(w: string, at: Clock)
    requires w != [] && Trimmed(w) && at.idStamp != [] && Trimmed(at.idStamp)
    ensures Strip(RequestId(w, at)) == RequestId(w, at)
  {
    var id := RequestId(w, at);
    assert id[0] == w[0] && id[|id| - 1] == at.idStamp[|at.idStamp| - 1];
    StripTrimmed(id);
  }

  /** The whole state after an accepted `THEM`. */
  lemma AddAccepted(s: Store, arg: Option<string>, w: string, m: string, username: string, at: Clock)
    requires s.Valid() && ParseSubmission(arg) == WordMeaning(w, m) && w !in s.dictionary
    ensures ProposeAdd(s, arg, username, at).0 ==
      Store(s.dictionary, s.pending[RequestId(w, at) := Add(w, m, username, at.timestamp)], Put(s.order, RequestId(w, at)))
  {
  }

  /** The whole state after an accepted `APPROVE`. */
  lemma ApproveAccepted(s: Store, id: string)
    requires s.Valid() && id in s.pending && Strip(id) == id
    ensures ApproveRequest(s, Admin, Some(id)).0 ==
      Store(s.dictionary[s.pending[id].word := s.pending[id].Proposed()], s.pending - {id}, Remove(s.order, id))
  {
  }

  lemma UpdateTwice(m: map<string, Proposal>, k: string, a: Proposal, b: Proposal)
    ensures m[k := a][k := b] == m[k := b]
  {
  }

  lemma DropUpdated(m: map<string, Proposal>, k: string, a: Proposal)
    ensures m[k := a] - {k} == m - {k}
  {
  }

  /** `TRA` of a normalised word looks up exactly that word. */
  lemma TranslateNormal(dictionary: map<string, string>, w: string)
    requires w in dictionary && Trimmed(w) && forall i :: 0 <= i < |w| ==> !('A' <= w[i] <= 'Z')
    ensures Translate(dictionary, Some(w)) == Line(Success, Found(w, dictionary[w]))
  {
    LowerOfLower(w);
    StripTrimmed(w);
  }

  lemma DropFresh(m: map<string, Proposal>, k: string, a: Proposal)
    requires k !in m
    ensures m[k := a] - {k} == m
  {
  }

  /** `THEM|word:meaning` followed by `APPROVE` of the id it reports adds the
      word with its meaning (after which `TRA` of the word finds it, by
      `TranslateNormal`) and leaves no trace of the proposal. */
  lemma SubmitThenApprove(s: Store, arg: Option<string>, w: string, m: string, username: string, at: Clock)
    requires s.Valid() && ParseSubmission(arg) == WordMeaning(w, m) && w !in s.dictionary
    requires at.idStamp != [] && Trimmed(at.idStamp)
    ensures var s1 := ProposeAdd(s, arg, username, at).0;
      var s2 := ApproveRequest(s1, Admin, Some(RequestId(w, at))).0;
      && s2.dictionary == s.dictionary[w := m]
      && s2.pending == s.pending - {RequestId(w, at)}
  {
    var id := RequestId(w, at);
    var req := Add(w, m, username, at.timestamp);
    AddAccepted(s, arg, w, m, username, at);
    var s1 := Store(s.dictionary, s.pending[id := req], Put(s.order, id));
    RequestIdTrimmed(w, at);
    ApproveAccepted(s1, id);
    DropUpdated(s.pending, id, req);
  }

  /** `THEM|word:meaning` with a fresh id followed by `REJECT` of that id
      gives back the state before the submission. */
  lemma SubmitThenReject(s: Store, arg: Option<string>, w: string, m: string, username: string, at: Clock)
    requires s.Valid() && ParseSubmission(arg) == WordMeaning(w, m) && w !in s.dictionary
    requires at.idStamp != [] && Trimmed(at.idStamp)
    requires RequestId(w, at) !in s.pending
    ensures var s1 := ProposeAdd(s, arg, username, at).0;
      RejectRequest(s1, Admin, Some(RequestId(w, at))).0 == s
  {
    var id := RequestId(w, at);
    AddAccepted(s, arg, w, m, username, at);
    RequestIdTrimmed(w, at);
    RemovePut(s.order, id);
    DropFresh(s.pending, id, Add(w, m, username, at.timestamp));
  }

  /** Two submissions for the same word within one clock second share an id:
      the second proposal silently replaces the first, which keeps its place
      in the `PENDING` listing. */
  lemma SameSecondOverwrites(s: Store, a1: Option<string>, a2: Option<string>, w: string, m1: string, m2: string,
                             u1: string, u2: string, at: Clock)
    requires s.Valid() && w !in s.dictionary
    requires ParseSubmission(a1) == WordMeaning(w, m1) && ParseSubmission(a2) == WordMeaning(w, m2)
    ensures var id := RequestId(w, at);
      var s1 := ProposeAdd(s, a1, u1, at).0;
      var s2 := ProposeAdd(s1, a2, u2, at).0;
      && s2.pending == s.pending[id := Add(w, m2, u2, at.timestamp)]
      && s2.order == s1.order == Put(s.order, id)
  {
    var id := RequestId(w, at);
    AddAccepted(s, a1, w, m1, u1, at);
    var s1 := ProposeAdd(s, a1, u1, at).0;
    AddAccepted(s1, a2, w, m2, u2, at);
    UpdateTwice(s.pending, id, Add(w, m1, u1, at.timestamp), Add(w, m2, u2, at.timestamp));
  }
}
