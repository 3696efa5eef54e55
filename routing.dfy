/**
 * The line protocol of `Client.ev_client` (server.cs): how one request line is
 * classified, and how a reply is framed and read back by the editor plugin
 * (VFF.rb), which writes `find match <text>` / `grep match <text>` and reads
 * reply lines up to the first empty one.
 */
module Routing {
  import opened Results
  import opened Text
  import opened Config

  /** What the read loop does with one line. */
  datatype Command =
    | Blank                       // comment or blank line: read the next one
    | Configure(path: string)     // `config <path>`: load that file and switch to it
    | Grep(query: Option<string>) // `grep match ...`; `None` when the query's `Substring` throws
    | Find(query: Option<string>) // `find match ...`, the query lower-cased
    | Nop                         // answered with `nop`
    | Quit                        // ends the session
    | Ignore                      // any other first word: no reply
    | Fail                        // a missing second word: `s[1]` throws and the session ends

  /**
   * The query of a `grep match` / `find match` line: everything from six
   * characters past the first `match`, or `None` when that start lies beyond
   * the end of the line.
   */
  function Query(l: string): (r: Option<string>)
    ensures r.Some? ==> |r.value| <= |l| && r.value == l[|l| - |r.value|..]
  {
    var start := IndexOf(l, "match", 0) + 6;
    if start > |l| then None else Some(l[start..])
  }

  /** `Option` lifted `ToLowerInvariant`. */
  function LowerQuery(q: Option<string>): Option<string> {
    if q.None? then None else Some(Lower(q.value))
  }

  /**
   * One pass of the read loop of `ev_client`: the comment is stripped and a
   * blank line skipped; the line is split on blanks and tabs and dispatched on
   * its first word, and for `grep` / `find` on its second.
   */
  function Route(line: string): (c: Command)
    ensures c.Blank? <==> IsBlank(StripComment(line))
  {
    var l := StripComment(line);
    if IsBlank(l) then Blank
    else
      TokensOfNonBlank(l);
      Dispatch(l, Tokens(l))
  }

  /** The dispatch of a non-blank line `l` on its words `s`. */
  function Dispatch(l: string, s: seq<string>): (c: Command)
    requires |s| > 0
    ensures c != Blank
  {
    if s[0] == "config" then (if |s| < 2 then Fail else Configure(s[1]))
    else if s[0] == "grep" && |s| < 2 then Fail
    else if s[0] == "grep" && s[1] == "match" then Grep(Query(l))
    else if s[0] == "find" && |s| < 2 then Fail
    else if s[0] == "find" && s[1] == "match" then Find(LowerQuery(Query(l)))
    else if s[0] == "nop" then Nop
    else if s[0] == "quit" then Quit
    else Ignore
  }

  /** A line is skipped exactly when its first character other than white space is `#`, or it has none. */
  lemma {:induction false} RouteSkips(line: string)
    requires '\n' !in line
    ensures Route(line) == Blank <==> SkipWhite(line) == [] || SkipWhite(line)[0] == '#'
  {
    SkippedLines(line);
  }

  /** A line starting with a character other than white space and `#` is dispatched whole. */
  lemma {:induction false} RouteKept(l: string)
    requires l != [] && !IsWhite(l[0]) && l[0] != '#'
    ensures !IsBlank(l) && |Tokens(l)| > 0 && Route(l) == Dispatch(l, Tokens(l))
  {
    StripCommentKeeps(l);
    TokensOfNonBlank(l);
  }

  /** The two verbs a request line starts with. */
  predicate IsVerb(verb: string) {
    verb == "find" || verb == "grep"
  }

  lemma {:induction false} VerbIsWord(verb: string)
    requires IsVerb(verb)
    ensures IsWord(verb) && |verb| == 4 && !IsWhite(verb[0]) && verb[0] != '#'
    ensures forall k :: 0 <= k < 4 ==> verb[k] != 'm'
  {
  }

  /** The first `match` of a line starting with a verb and a blank is the one right after them. */
  lemma {:induction false} MatchAfterVerb(l: string)
    requires |l| >= 10 && IsVerb(l[..4]) && l[4] == ' ' && l[5..10] == "match"
    ensures IndexOf(l, "match", 0) == 5
  {
    VerbIsWord(l[..4]);
    assert OccursAt(l, "match", 5);
    forall k | 0 <= k < 5 ensures !OccursAt(l, "match", k) {
      assert l[k] == (l[..4] + [' '])[k];
      assert l[k..k + 5][0] != 'm';
    }
  }

  /** Two words, each followed by a blank, then any text: the two words, then the words of the text. */
  lemma {:induction false} TwoWordsThen(a: string, b: string, text: string)
    requires IsWord(a) && IsWord(b)
    ensures Tokens(a + [' '] + (b + [' '] + text)) == [a] + ([b] + Tokens(text))
  {
    TokensOfWordThen(b, ' ', text);
    TokensOfWordThen(a, ' ', b + [' '] + text);
  }

  /** Two words separated by a blank. */
  lemma {:induction false} TwoWords(a: string, b: string)
    requires IsWord(a) && IsWord(b)
    ensures Tokens(a + [' '] + b) == [a] + [b]
  {
    TokensOfWordThen(a, ' ', b);
    TokensOfWord(b);
  }

  lemma {:induction false} Cons2(a: string, b: string, t: seq<string>)
    ensures [a] + ([b] + t) == [a, b] + t
    ensures [a] + [b] == [a, b]
  {
  }

  /** The dispatch of a line whose first two words are a verb and `match`. */
  lemma {:induction false} DispatchVerb(l: string, s: seq<string>)
    requires |s| >= 2 && IsVerb(s[0]) && s[1] == "match"
    ensures Dispatch(l, s) == if s[0] == "find" then Find(LowerQuery(Query(l))) else Grep(Query(l))
  {
  }

  /** The request line the plugin writes. */
  function Request(verb: string, text: string): string {
    verb + " match " + text
  }

  /** Where the verb, `match` and the text sit in a request line. */
  lemma {:induction false} RequestParts(verb: string, text: string)
    requires |verb| == 4
    ensures var l := Request(verb, text);
      && l == verb + [' '] + ("match" + [' '] + text)
      && l[..4] == verb && l[4] == ' ' && l[5..10] == "match" && l[11..] == text
  {
  }

  /** Splitting a request line as the plugin writes it: the verb, `match`, then the words of the text. */
  lemma {:induction false} RequestTokens(verb: string, text: string)
    requires IsVerb(verb)
    ensures Tokens(Request(verb, text)) == [verb, "match"] + Tokens(text)
  {
    VerbIsWord(verb);
    assert IsWord("match");
    TwoWordsThen(verb, "match", text);
    RequestParts(verb, text);
    Cons2(verb, "match", Tokens(text));
  }

  /**
   * What the plugin sends is what the server searches for: whatever text
   * follows `find match ` is the (lower-cased) path query and whatever
   * follows `grep match ` the grep query, blanks, tabs and `#` included.
   */
  lemma {:induction false} RequestRoundTrip(verb: string, text: string)
    requires IsVerb(verb)
    ensures Route(Request(verb, text)) == if verb == "find" then Find(Some(Lower(text))) else Grep(Some(text))
  {
    var l := Request(verb, text);
    assert Route(l) == Dispatch(l, Tokens(l)) by {
      VerbIsWord(verb);
      RequestParts(verb, text);
      RouteKept(l);
    }
    assert Query(l) == Some(text) by {
      VerbIsWord(verb);
      RequestParts(verb, text);
      MatchAfterVerb(l);
    }
    RequestTokens(verb, text);
    DispatchVerb(l, Tokens(l));
  }

  /** A request with nothing after `match` has no query: its `Substring` would start past the end of the line. */
  lemma {:induction false} BareRequest(verb: string)
    requires IsVerb(verb)
    ensures Route(verb + " match") == if verb == "find" then Find(None) else Grep(None)
  {
    var l := verb + " match";
    VerbIsWord(verb);
    assert IsWord("match");
    assert l == verb + [' '] + "match";
    assert l[..4] == verb && l[4] == ' ' && l[5..10] == "match";
    RouteKept(l);
    TwoWords(verb, "match");
    Cons2(verb, "match", []);
    MatchAfterVerb(l);
    DispatchVerb(l, Tokens(l));
  }

  /** A `config` line naming a file configures from that file. */
  lemma {:induction false} ConfigRequest(path: string)
    requires IsWord(path)
    ensures Route("config " + path) == Configure(path)
  {
    var l := "config " + path;
    assert IsWord("config");
    assert l == "config" + [' '] + path;
    RouteKept(l);
    TwoWords("config", path);
    Cons2("config", path, []);
  }

  /** A second word is only read for `config`, `grep` and `find`: without one, these throw and the others do not. */
  lemma {:induction false} LoneWord(w: string)
    requires IsWord(w) && w[0] != '#' && !IsWhite(w[0])
    ensures Route(w) == (if w == "config" || w == "grep" || w == "find" then Fail
                         else if w == "nop" then Nop
                         else if w == "quit" then Quit
                         else Ignore)
  {
    StripCommentKeeps(w);
    TokensOfWord(w);
  }

  /** The reply to a match request: each item on its own line, then an empty line. */
  function Reply(items: seq<string>): (r: string)
    ensures |r| > 0 && r[|r| - 1] == '\n'
  {
    Body(items) + "\n"
  }

  /** The `StringBuilder` of a match reply: each item followed by a newline. */
  function Body(items: seq<string>): (r: string)
    ensures |r| >= |items|
  {
    if items == [] then "" else Body(items[..|items| - 1]) + items[|items| - 1] + "\n"
  }

  /** Ruby's `gsub(/\r\n?/, "\n")`: every carriage return, with the newline after it if any, becomes one newline. */
  function Unify(s: string): (r: string)
    ensures |r| <= |s| && (s != [] ==> r != [])
  {
    if s == [] then []
    else if s[0] == '\r' then "\n" + Unify(if |s| > 1 && s[1] == '\n' then s[2..] else s[1..])
    else [s[0]] + Unify(s[1..])
  }

  /** No carriage return is left after `Unify`. */
  lemma {:induction false} UnifyRemovesCarriageReturns(s: string)
    ensures '\r' !in Unify(s)
    decreases |s|
  {
    if s != [] {
      var t := if s[0] == '\r' && |s| > 1 && s[1] == '\n' then s[2..] else s[1..];
      UnifyRemovesCarriageReturns(t);
      var u := Unify(t);
      assert Unify(s) == (if s[0] == '\r' then "\n" else [s[0]]) + u;
      assert s[0] != '\r' ==> '\r' != s[0];
    }
  }

  /** Text without a carriage return passes `Unify` unchanged in front of any text. */
  lemma {:induction false} UnifyPlain(a: string, b: string)
    requires '\r' !in a
    ensures Unify(a + b) == a + Unify(b)
  {
    if a == [] {
      assert a + b == b;
    } else {
      var t := a[1..];
      assert '\r' !in t by {
        forall i | 0 <= i < |t| ensures t[i] != '\r' {
          assert t[i] == a[i + 1];
        }
      }
      UnifyPlain(t, b);
      var ab := a + b;
      assert ab[0] == a[0] && a[0] != '\r' && ab[1..] == t + b;
      calc {
        Unify(ab);
        [a[0]] + Unify(t + b);
        [a[0]] + (t + Unify(b));
        { assert [a[0]] + t == a; }
        a + Unify(b);
      }
    }
  }

  /** The line the plugin keeps for one `gets` that returned `raw`: unified, then `chop`ped. */
  function Chopped(raw: string): (r: string)
    requires raw != []
    ensures |r| < |raw|
  {
    var u := Unify(raw);
    u[..|u| - 1]
  }

  /** What the plugin reads back for an item sent on its own line. */
  function Seen(item: string): string {
    Chopped(item + "\n")
  }

  /**
   * The plugin's read loop: `gets` one line at a time (up to and including
   * its newline), turn carriage returns into newlines, `chop` the last
   * character, and stop at the first empty line or at the end. The result is
   * the lines read and what remains of the stream.
   */
  function ReadReply(s: string): (r: (seq<string>, string))
    ensures |r.1| <= |s| && r.1 == s[|s| - |r.1|..]
    decreases |s|
  {
    if s == [] then ([], [])
    else
      var n := LineEnd(s, 0);
      var line := Chopped(if n < |s| then s[..n + 1] else s);
      var rest := if n < |s| then s[n + 1..] else [];
      if line == [] then ([], rest)
      else
        var (lines, left) := ReadReply(rest);
        ([line] + lines, left)
  }

  /** What the plugin reads back for each of the items. */
  function SeenAll(items: seq<string>): (r: seq<string>)
    ensures |r| == |items| && forall k :: 0 <= k < |items| ==> r[k] == Seen(items[k])
  {
    seq(|items|, k requires 0 <= k < |items| => Seen(items[k]))
  }

  /** An item without carriage return or newline is read back as itself. */
  lemma SeenPlain(item: string)
    requires '\r' !in item && '\n' !in item
    ensures Seen(item) == item
  {
    assert '\r' !in item + "\n";
    UnifyPlain(item + "\n", []);
    assert item + "\n" + [] == item + "\n";
  }

  /**
   * A record cut from a file with Windows line ends carries the `\r` before
   * the newline; the plugin reads it back without it.
   */
  lemma {:induction false} SeenDropsCarriageReturn(item: string)
    requires '\r' !in item && '\n' !in item
    ensures Seen(item + "\r") == item
  {
    assert item + "\r" + "\n" == item + "\r\n";
    UnifyPlain(item, "\r\n");
    assert Unify("\r\n") == "\n" + Unify([]);
  }

  /** An item that is a lone carriage return reads as the empty line and ends the reply early. */
  lemma LoneCarriageReturnEndsReply()
    ensures ReadReply(Reply(["\r", "x"])) == ([], "x\n\n")
  {
    BodyCons("\r", ["x"]);
    var s := "\r\nx\n\n";
    assert Reply(["\r", "x"]) == s;
    assert LineEnd(s, 0) == 1 by { LineEndAt(s, 0, 1); }
    assert s[..2] == "\r\n";
    assert Unify("\r\n") == "\n" + Unify([]);
    assert s[2..] == "x\n\n";
  }

  /** A line read back whole: a line without newline, then its newline, then the rest. */
  lemma {:induction false} ReadLine(item: string, rest: string)
    requires '\n' !in item
    ensures LineEnd(item + "\n" + rest, 0) == |item|
  {
    var s := item + "\n" + rest;
    LineEndAt(s, 0, |item|);
  }

  lemma {:induction false} LineEndAt(s: string, k: nat, n: nat)
    requires k <= n < |s| && s[n] == '\n' && forall i :: k <= i < n ==> s[i] != '\n'
    ensures LineEnd(s, k) == n
    decreases n - k
  {
    if k < n {
      LineEndAt(s, k + 1, n);
    }
  }

  /**
   * The framing round trip: after a reply whose items are non-empty and hold
   * neither newline nor carriage return, the plugin reads back exactly those
   * items, in order, and stops with the following replies left unread.
   */
  lemma {:induction false} ReplyRoundTrip(items: seq<string>, more: string)
    requires forall k :: 0 <= k < |items| ==> items[k] != [] && '\n' !in items[k] && '\r' !in items[k]
    ensures ReadReply(Reply(items) + more) == (items, more)
  {
    forall k | 0 <= k < |items| {
      SeenPlain(items[k]);
    }
    ReplyReadBack(items, more);
    assert SeenAll(items) == items;
  }

  /** Every item holds no newline and does not read back as the empty line that ends a reply. */
  ghost predicate Framed(items: seq<string>) {
    forall k :: 0 <= k < |items| ==> '\n' !in items[k] && Seen(items[k]) != []
  }

  /**
   * The framing in general: after a reply whose items hold no newline and do
   * not read back empty, the plugin reads back what it sees of each item, in
   * order, and stops with the following replies left unread.
   */
  lemma {:induction false} ReplyReadBack(items: seq<string>, more: string)
    requires Framed(items)
    ensures ReadReply(Reply(items) + more) == (SeenAll(items), more)
  {
    if items == [] {
      assert Reply(items) + more == "\n" + more;
      ReadEmptyLine(more);
    } else {
      var item, tail := items[0], items[1..];
      FramedTail(items);
      ReplyReadBack(tail, more);
      assert [item] + tail == items;
      ReplyConsMore(item, tail, more);
      SeenAllCons(item, tail);
      ReadReplyStep(item, Reply(tail) + more);
    }
  }

  /** A reply with one more item in front: that item's line, then the rest of the reply. */
  lemma ReplyConsMore(item: string, tail: seq<string>, more: string)
    ensures Reply([item] + tail) + more == item + "\n" + (Reply(tail) + more)
  {
    BodyCons(item, tail);
  }

  /** What the plugin sees of one more item in front. */
  lemma SeenAllCons(item: string, tail: seq<string>)
    ensures SeenAll([item] + tail) == [Seen(item)] + SeenAll(tail)
  {
  }

  /** The first item of framed items reads back whole, and the rest are framed. */
  lemma FramedTail(items: seq<string>)
    requires Framed(items) && items != []
    ensures '\n' !in items[0] && Seen(items[0]) != [] && Framed(items[1..])
  {
    forall k | 0 <= k < |items| - 1 ensures '\n' !in items[1..][k] && Seen(items[1..][k]) != [] {
      assert items[1..][k] == items[k + 1];
    }
  }

  /** The empty line that closes a reply is read as its end, and what follows is left. */
  lemma ReadEmptyLine(more: string)
    ensures ReadReply("\n" + more) == ([], more)
  {
    var s := "\n" + more;
    assert LineEnd(s, 0) == 0;
    assert s[..1] == "\n" && Chopped("\n") == [];
    assert s[1..] == more;
  }

  /** One item line read back: what the plugin sees of it, then the lines after it. */
  lemma ReadReplyStep(item: string, rest: string)
    requires '\n' !in item && Seen(item) != []
    ensures ReadReply(item + "\n" + rest) == ([Seen(item)] + ReadReply(rest).0, ReadReply(rest).1)
  {
    var s := item + "\n" + rest;
    ReadLine(item, rest);
    assert s[..|item| + 1] == item + "\n";
    assert s[|item| + 1..] == rest;
  }

  /** The body of a reply built from the front: the first item, its newline, then the body of the rest. */
  lemma {:induction false} BodyCons(x: string, xs: seq<string>)
    ensures Body([x] + xs) == x + "\n" + Body(xs)
    ensures Reply([x] + xs) == x + "\n" + Reply(xs)
    decreases |xs|
  {
    if xs != [] {
      var init := xs[..|xs| - 1];
      assert ([x] + xs)[..|xs|] == [x] + init;
      BodyCons(x, init);
    } else {
      assert [x] + xs == [x];
    }
  }
}
