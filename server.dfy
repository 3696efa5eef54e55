/**
 * One connection of the server (`Client.ev_client`, server.cs): each request
 * line is routed, a `config` line switches the client to the configuration
 * file it names, a `find match` / `grep match` line is answered with the best
 * 200 results of all the client's matchers together, and when the session
 * ends, by `quit`, an error or the end of the stream, every matcher the
 * client holds is freed.
 */
module Server {
  import opened Results
  import opened Text
  import opened Config
  import opened Ranking
  import opened Index
  import opened Matchers
  import opened Session
  import opened Refcounts
  import opened Routing

  /** The size of the combined list, and how many results each matcher is asked for. */
  const Capacity: nat := 200

  /**
   * The combined list of one request: the matchers' answers added one after
   * the other to an empty list of `Capacity`, or `None` as soon as one of
   * them throws.
   */
  function Merged(answers: seq<Option<seq<Scored>>>): (r: Option<TopN>)
    ensures r.Some? ==> Valid(r.value) && r.value.capacity == Capacity
  {
    if answers == [] then Some(Empty(Capacity))
    else
      match Merged(answers[..|answers| - 1])
      case None => None
      case Some(t) =>
        match answers[|answers| - 1]
        case None => None
        case Some(items) => Some(AddAll(t, items))
  }

  /** All the items of the answers, in order. */
  function Flatten(answers: seq<Option<seq<Scored>>>): seq<Scored> {
    if answers == [] then []
    else Flatten(answers[..|answers| - 1]) + (if answers[|answers| - 1].Some? then answers[|answers| - 1].value else [])
  }

  /** A request fails exactly when one of the matchers' matches throws. */
  lemma {:induction false} MergedFails(answers: seq<Option<seq<Scored>>>)
    ensures Merged(answers).None? <==> exists j :: 0 <= j < |answers| && answers[j].None?
  {
    if answers != [] {
      var n := |answers| - 1;
      var init := answers[..n];
      MergedFails(init);
      if exists j :: 0 <= j < n && init[j].None? {
        var j :| 0 <= j < n && init[j].None?;
        assert answers[j].None?;
      }
      if exists j :: 0 <= j < |answers| && answers[j].None? {
        var j :| 0 <= j < |answers| && answers[j].None?;
        if j < n {
          assert init[j].None?;
        }
      }
    }
  }

  /** When no match throws, the combined list is every item of every answer added, in order, to an empty list. */
  lemma {:induction false} MergedAddsAll(answers: seq<Option<seq<Scored>>>)
    requires forall j :: 0 <= j < |answers| ==> answers[j].Some?
    ensures Merged(answers) == Some(AddAll(Empty(Capacity), Flatten(answers)))
  {
    if answers != [] {
      var n := |answers| - 1;
      var init := answers[..n];
      assert forall j :: 0 <= j < |init| ==> init[j] == answers[j];
      MergedAddsAll(init);
      var last := answers[n].value;
      assert Flatten(answers) == Flatten(init) + last;
      AddAllAppend(Empty(Capacity), Flatten(init), last);
    }
  }

  /**
   * The combined list the client is sent: at most 200 of all the matchers'
   * results, best first, and no result left out scores above one sent.
   */
  lemma {:induction false} MergedKeepsBest(answers: seq<Option<seq<Scored>>>)
    requires forall j :: 0 <= j < |answers| ==> answers[j].Some?
    ensures Merged(answers).Some?
    ensures var t, xs := Merged(answers).value, Flatten(answers);
      && |t.items| == (if |xs| <= Capacity then |xs| else Capacity)
      && Descending(t.items)
      && multiset(t.items) + Ranking.Dropped(Capacity, xs) == multiset(xs)
      && forall d, r :: d in Ranking.Dropped(Capacity, xs) && r in t.items ==> d.score <= r.score
  {
    MergedAddsAll(answers);
    AddAllKeepsBest(Capacity, Flatten(answers));
  }

  /**
   * What one matcher answers a request, as `Matcher.PathMatch` and
   * `Matcher.GrepMatch` return it: the path or grep matcher's best `Capacity`
   * with full paths; `None` when the match throws or when the query itself
   * could not be cut from the line.
   */
  function Asked(m: Matcher, kind: Kind, q: Option<string>): Option<seq<Scored>>
    reads m.index
  {
    if q.None? then None
    else Answer(m.config.scanDir, Ranked(kind, m.index.contents, m.index.paths, q.value, Capacity))
  }

  /** The answers of the client's matchers, in the order its dictionary enumerates them. */
  function Answers(held: map<DirKey, Matcher>, order: seq<DirKey>, kind: Kind, q: Option<string>): (r: seq<Option<seq<Scored>>>)
    requires forall j :: 0 <= j < |order| ==> order[j] in held
    reads set k | k in held :: held[k].index
    ensures |r| == |order|
    ensures forall j :: 0 <= j < |order| ==> r[j] == Asked(held[order[j]], kind, q)
  {
    if order == [] then []
    else Answers(held, order[..|order| - 1], kind, q) + [Asked(held[order[|order| - 1]], kind, q)]
  }

  /**
   * The two nested loops of a `find match` / `grep match` request: every
   * result of every held matcher is added to one list of 200.
   */
  method Collect(held: map<DirKey, Matcher>, order: seq<DirKey>, kind: Kind, q: Option<string>) returns (r: Option<TopN>)
    requires forall j :: 0 <= j < |order| ==> order[j] in held
    ensures r == Merged(Answers(held, order, kind, q))
  {
    var answers := Answers(held, order, kind, q);
    r := MergeAnswers(answers);
  }

  /** The outer loop over the matchers' answers: the first failure ends the request. */
  method MergeAnswers(answers: seq<Option<seq<Scored>>>) returns (r: Option<TopN>)
    ensures r == Merged(answers)
  {
    var t := Empty(Capacity);
    var i := 0;
    while i < |answers|
      invariant i <= |answers|
      invariant Merged(answers[..i]) == Some(t)
    {
      var a := answers[i];
      if a.None? {
        NoneStays(answers, i);
        return None;
      }
      MergedNext(answers, i, t);
      t := AddEach(t, a.value);
      i := i + 1;
    }
    assert answers[..i] == answers;
    r := Some(t);
  }

  /** One more matcher's answer added to the combined list. */
  lemma {:induction false} MergedNext(answers: seq<Option<seq<Scored>>>, i: nat, t: TopN)
    requires i < |answers| && answers[i].Some? && Merged(answers[..i]) == Some(t)
    ensures Merged(answers[..i + 1]) == Some(AddAll(t, answers[i].value))
  {
    assert answers[..i + 1][..i] == answers[..i];
  }

  /** Once a request has failed, later matchers do not revive it. */
  lemma {:induction false} NoneStays(answers: seq<Option<seq<Scored>>>, i: nat)
    requires i < |answers| && answers[i].None?
    ensures Merged(answers) == None
  {
    MergedFails(answers);
  }

  /** The inner loop of a request: `combinedMatches.Add` for each result of one matcher. */
  method AddEach(t: TopN, items: seq<Scored>) returns (r: TopN)
    requires Valid(t)
    ensures r == AddAll(t, items)
  {
    r := t;
    var j := 0;
    while j < |items|
      invariant j <= |items| && Valid(r) && r == AddAll(t, items[..j])
    {
      AddAllStep(t, items, j);
      r := Add(r, items[j]);
      j := j + 1;
    }
    assert items[..j] == items;
  }

  /** The items of the combined list, in order: what the reply lists. */
  function Items(xs: seq<Scored>): (r: seq<string>)
    ensures |r| == |xs| && forall j :: 0 <= j < |xs| ==> r[j] == xs[j].item
  {
    seq(|xs|, j requires 0 <= j < |xs| => xs[j].item)
  }

  /**
   * `new ConfigParser().LoadConfig(path)` seen from the server: `files`
   * gives the lines of each readable file, and a missing file or a bad line
   * is an error.
   */
  function Loaded(files: string -> Option<seq<string>>, path: string): (r: Result<DirConfig>)
    ensures r.Ok? ==> files(path).Some? && r.value.configPath == path && r.value.scanDir == DirName(path)
    ensures files(path).None? ==> r.Err?
  {
    if files(path).None? then Err("Could not find file " + path)
    else
      match ParseRules(files(path).value)
      case Err(msg) => Err(msg)
      case Ok(rules) => Ok(DirConfig(path, DirName(path), rules))
  }

  /** The combined reply of a request, or `None` when the request throws. */
  function Outcome(m: Option<TopN>): Option<string> {
    if m.None? then None else Some(Reply(Items(m.value.items)))
  }

  /** The query and the matcher kind of a `find` or `grep` command. */
  function KindOf(c: Command): Kind
    requires c.Grep? || c.Find?
  {
    if c.Grep? then GrepKind else PathKind
  }

  /**
   * The reply and the end of session for a line other than `config`, given
   * what the client holds: `nop` is echoed, `quit` and an unrouted line end
   * the session, and a search replies with the merged results unless it throws.
   * A search throws in one of two places. When the query cannot be cut from
   * the line, `Substring` throws on the client's own thread, and the session
   * ends. When a `DoMatch` throws, it does so on a pool thread of `Match`,
   * where nothing catches it, and the whole server process ends (`crash`).
   */
  predicate Replies(c: Command, held: map<DirKey, Matcher>, order: seq<DirKey>, reply: string, stop: bool, crash: bool)
    requires forall j :: 0 <= j < |order| ==> order[j] in held
    reads set k | k in held :: held[k].index
  {
    && (c.Blank? || c.Ignore? ==> reply == "" && !stop && !crash)
    && (c.Nop? ==> reply == "nop\n" && !stop && !crash)
    && (c.Quit? || c.Fail? ==> reply == "" && stop && !crash)
    && (c.Grep? || c.Find? ==>
          var o := Outcome(Merged(Answers(held, order, KindOf(c), c.query)));
          && (stop <==> o.None?) && (crash <==> o.None? && c.query.Some?)
          && reply == (if o.None? then "" else o.value))
  }

  /** The session's working state: what the client holds is the cache's, and every cached key is counted once per client holding it. */
  ghost predicate Live(client: Client, cache: Cache, others: seq<set<DirKey>>)
    reads client, cache, cache.repr
  {
    && client.Valid() && cache.Valid() && client.HeldIn(cache) && client !in cache.repr
    && Counted(cache.counts, others + [client.held.Keys])
  }

  /**
   * One pass of the read loop of `ev_client`, for a line routed to `c`.
   * `stop` is true when the session ends here, by `quit` or by an exception;
   * `crash` is true when that exception ends the whole process; the reply is
   * what is written for this line.
   */
  method Handle(client: Client, cache: Cache, c: Command, files: string -> Option<seq<string>>,
                ghost others: seq<set<DirKey>>) returns (reply: string, stop: bool, crash: bool)
    requires Live(client, cache, others)
    modifies client, cache, cache.repr
    ensures Live(client, cache, others)
    ensures old(cache.repr) <= cache.repr && (forall o :: o in cache.repr && o !in old(cache.repr) ==> fresh(o))
    ensures Replies(c, client.held, client.order, reply, stop, crash)
    ensures c.Configure? ==> reply == "" && (stop <==> Loaded(files, c.path).Err?) && !crash
    ensures c.Configure? && Loaded(files, c.path).Ok? ==>
      var d := Loaded(files, c.path).value;
      && client.held.Keys == {Key(d)} && client.order == [Key(d)]
      && cache.counts == Expected(old(cache.counts), old(client.held.Keys), [d])
    ensures !(c.Configure? && Loaded(files, c.path).Ok?) ==>
      && client.held == old(client.held) && client.order == old(client.order)
      && cache.entries == old(cache.entries) && cache.counts == old(cache.counts)
  {
    if c.Configure? {
      reply, crash := "", false;
      stop := Switch(client, cache, c.path, files, others);
    } else {
      reply, stop, crash := Respond(client, cache, c);
    }
  }

  /** The lines other than `config`, which leave the client and the cache as they are. */
  method Respond(client: Client, cache: Cache, c: Command) returns (reply: string, stop: bool, crash: bool)
    requires client.Valid() && cache.Valid() && client.HeldIn(cache) && !c.Configure?
    ensures Replies(c, client.held, client.order, reply, stop, crash)
  {
    crash := false;
    match c {
      case Grep(q) =>
        reply, stop, crash := Search(client, cache, GrepKind, q);
      case Find(q) =>
        reply, stop, crash := Search(client, cache, PathKind, q);
      case Nop =>
        reply, stop := "nop\n", false;
      case Quit =>
        reply, stop := "", true;
      case Fail =>
        reply, stop := "", true;
      case Blank =>
        reply, stop := "", false;
      case Ignore =>
        reply, stop := "", false;
    }
  }

  /** A `config` line: load the file and switch the client to it; a missing or bad file ends the session. */
  method Switch(client: Client, cache: Cache, path: string, files: string -> Option<seq<string>>,
                   ghost others: seq<set<DirKey>>) returns (stop: bool)
    requires Live(client, cache, others)
    modifies client, cache, cache.repr
    ensures Live(client, cache, others)
    ensures old(cache.repr) <= cache.repr && (forall o :: o in cache.repr && o !in old(cache.repr) ==> fresh(o))
    ensures stop <==> Loaded(files, path).Err?
    ensures Loaded(files, path).Ok? ==>
      var c := Loaded(files, path).value;
      && client.held.Keys == {Key(c)} && client.order == [Key(c)]
      && cache.counts == Expected(old(cache.counts), old(client.held.Keys), [c])
    ensures Loaded(files, path).Err? ==>
      && client.held == old(client.held) && client.order == old(client.order)
      && cache.entries == old(cache.entries) && cache.counts == old(cache.counts)
  {
    var lines := files(path);
    if lines.None? {
      return true;
    }
    var r := LoadConfig(path, lines.value);
    if r.Err? {
      return true;
    }
    ghost var rc, mine := cache.counts, client.held.Keys;
    var configs := [r.value];
    var needInit := client.UpdateConfig(cache, configs);
    Switched(rc, others, mine, r.value);
    stop := false;
  }

  /** The refcount invariant after a client holding `mine` switches to the single configuration `c`. */
  lemma {:induction false} Switched(rc: map<DirKey, int>, others: seq<set<DirKey>>, mine: set<DirKey>, c: DirConfig)
    requires Counted(rc, others + [mine])
    ensures Counted(Expected(rc, mine, [c]), others + [KeySet([c])])
    ensures KeySet([c]) == {Key(c)} && FirstKeys([c], 1) == [Key(c)]
  {
    var hs := others + [mine];
    assert Keys([c], 0) == {} && FirstKeys([c], 0) == [];
    UpdateKeepsCounted(rc, hs, |others|, [c]);
    assert hs[|others| := KeySet([c])] == others + [KeySet([c])];
  }

  /** The refcount invariant after the cleanup of a client that held `mine`. */
  lemma {:induction false} Disconnected(rc: map<DirKey, int>, others: seq<set<DirKey>>, mine: set<DirKey>)
    requires Counted(rc, others + [mine])
    ensures Counted(Released(rc, mine), others + [{}])
  {
    DisconnectKeepsCounted(rc, others + [mine], |others|);
    assert (others + [mine])[|others| := {}] == others + [{}];
  }

  /**
   * A `find match` / `grep match` line: the combined reply, or nothing when
   * the request throws. A query that cannot be cut from the line ends the
   * session; a throwing `DoMatch` ends the process.
   */
  method Search(client: Client, cache: Cache, kind: Kind, q: Option<string>) returns (reply: string, stop: bool, crash: bool)
    requires client.Valid() && cache.Valid() && client.HeldIn(cache)
    ensures var o := Outcome(Merged(Answers(client.held, client.order, kind, q)));
      && (stop <==> o.None?) && (crash <==> o.None? && q.Some?)
      && reply == (if o.None? then "" else o.value)
  {
    var t := Collect(client.held, client.order, kind, q);
    if t.None? {
      return "", true, q.Some?;
    }
    return Reply(Items(t.value.items)), false, false;
  }

  /**
   * `Handle` as the read loop sees it: the working state is kept, only a line
   * that may end the session ends it, and only a search with a query ends the
   * process.
   */
  method Step(client: Client, cache: Cache, c: Command, files: string -> Option<seq<string>>,
              ghost others: seq<set<DirKey>>) returns (reply: string, stop: bool, crash: bool)
    requires Live(client, cache, others)
    modifies client, cache, cache.repr
    ensures Live(client, cache, others)
    ensures old(cache.repr) <= cache.repr && (forall o :: o in cache.repr && o !in old(cache.repr) ==> fresh(o))
    ensures (c.Quit? || c.Fail? ==> stop) && (stop ==> MayEnd(c))
    ensures crash ==> stop && Crashes(c)
  {
    reply, stop, crash := Handle(client, cache, c, files, others);
  }

  /** Whether a line of this kind can end the process: a search whose query was cut from the line. */
  predicate Crashes(c: Command) {
    (c.Grep? || c.Find?) && c.query.Some?
  }

  /** The commands the lines are routed to, one per line. */
  function Commands(lines: seq<string>): (r: seq<Command>)
    ensures |r| == |lines| && forall j :: 0 <= j < |lines| ==> r[j] == Route(lines[j])
  {
    seq(|lines|, j requires 0 <= j < |lines| => Route(lines[j]))
  }

  /** Whether the session may end at a line of this kind. */
  predicate MayEnd(c: Command) {
    c.Quit? || c.Fail? || c.Configure? || c.Grep? || c.Find?
  }

  /**
   * `ev_client` on the lines a connection sends: handle them in order until
   * one ends the session or they run out, then free every matcher the client
   * holds. A session keeps the refcount invariant of the cache for all the
   * other clients, and only a `quit`, an exception or the end of the input
   * ends it. When a `DoMatch` throws, the process ends there (`crashed`):
   * nothing is released, and no other session goes on.
   */
  method Serve(client: Client, cache: Cache, lines: seq<string>, files: string -> Option<seq<string>>,
               ghost others: seq<set<DirKey>>) returns (out: string, handled: nat, crashed: bool)
    requires client.Valid() && cache.Valid() && client.HeldIn(cache) && client !in cache.repr
    requires client.held == map[] && Counted(cache.counts, others)
    modifies client, cache, cache.repr
    ensures cache.Valid()
    ensures !crashed ==> client.held == map[] && client.order == [] && Counted(cache.counts, others)
    ensures handled <= |lines|
    ensures crashed ==> handled > 0 && Crashes(Route(lines[handled - 1]))
    ensures forall j :: 0 <= j < handled - 1 ==> !Route(lines[j]).Quit? && !Route(lines[j]).Fail?
    ensures handled < |lines| ==> handled > 0 && MayEnd(Route(lines[handled - 1]))
  {
    out, handled, crashed := Run(client, cache, Commands(lines), files, others);
  }

  /** The read loop and the `finally` of `ev_client`, over the routed lines. */
  method Run(client: Client, cache: Cache, cmds: seq<Command>, files: string -> Option<seq<string>>,
             ghost others: seq<set<DirKey>>) returns (out: string, handled: nat, crashed: bool)
    requires client.Valid() && cache.Valid() && client.HeldIn(cache) && client !in cache.repr
    requires client.held == map[] && Counted(cache.counts, others)
    modifies client, cache, cache.repr
    ensures cache.Valid()
    ensures !crashed ==> client.held == map[] && client.order == [] && Counted(cache.counts, others)
    ensures handled <= |cmds|
    ensures crashed ==> handled > 0 && Crashes(cmds[handled - 1])
    ensures forall j :: 0 <= j < handled - 1 ==> !cmds[j].Quit? && !cmds[j].Fail?
    ensures handled < |cmds| ==> handled > 0 && MayEnd(cmds[handled - 1])
  {
    IdleJoins(cache.counts, others);
    assert client.held.Keys == {};
    out, handled, crashed := "", 0, false;
    var stop := false;
    while handled < |cmds| && !stop
      invariant handled <= |cmds|
      invariant Live(client, cache, others)
      invariant old(cache.repr) <= cache.repr && (forall o :: o in cache.repr && o !in old(cache.repr) ==> fresh(o))
      invariant forall j :: 0 <= j < handled - 1 ==> !cmds[j].Quit? && !cmds[j].Fail?
      invariant handled > 0 && !stop ==> !cmds[handled - 1].Quit? && !cmds[handled - 1].Fail?
      invariant stop ==> handled > 0 && MayEnd(cmds[handled - 1])
      invariant crashed ==> stop && handled > 0 && Crashes(cmds[handled - 1])
    {
      var reply;
      reply, stop, crashed := Step(client, cache, cmds[handled], files, others);
      out := out + reply;
      handled := handled + 1;
    }
    if !crashed {
      ghost var rc, mine := cache.counts, client.held.Keys;
      client.Disconnect(cache);
      Disconnected(rc, others, mine);
      IdleJoins(cache.counts, others);
    }
  }
}
