// What the control session hands over through whole runs of service calls.
module ControlRuns {
  import opened Framing
  import opened ControlSession

  function RunFrom(c: Control, turns: seq<Turn>): Outcome {
    if turns == [] then Outcome(c, [])
    else
      var before := RunFrom(c, turns[..|turns| - 1]);
      var o := Service(before.c, turns[|turns| - 1]);
      Outcome(o.c, before.lines + o.lines)
  }

  function Run(turns: seq<Turn>): Outcome {
    RunFrom(INITIAL, turns)
  }

  // ----- the chunks of each session, from what the sockets delivered

  // The data a reading gets to: all of it up to the first other report.
  function DataOf(recvs: seq<Recv>): seq<string> {
    if recvs == [] || !recvs[0].Data? then [] else [recvs[0].bytes] + DataOf(recvs[1..])
  }

  // The chunks of the sessions that are over, in order, and of the one under way.
  datatype Account = Account(past: seq<seq<string>>, chunks: seq<string>)

  function End(a: Account): Account {
    Account(a.past + [a.chunks], [])
  }

  // A ready session ends when the host changes or the call leaves it; while it lasts it is given the
  // data of the call.
  function NextAccount(a: Account, c: Control, t: Turn, after: Phase): Account {
    if c.phase != Ready then a
    else if t.host != c.host || t.host == "" then End(a)
    else
      var given := a.(chunks := a.chunks + DataOf(t.recvs));
      if after == Ready then given else End(given)
  }

  function AccountOf(turns: seq<Turn>): Account {
    if turns == [] then Account([], [])
    else
      var init := turns[..|turns| - 1];
      NextAccount(AccountOf(init), Run(init).c, turns[|turns| - 1], Run(turns).c.phase)
  }

  // A session's lines: the complete lines of its own bytes, in order, without those that a chunk end
  // cuts past the cap.
  ghost function LinesOf(chunks: seq<string>): seq<string> {
    Uncut(Parse(Concat(chunks)).lines, Bounds(chunks))
  }

  ghost function AllLines(past: seq<seq<string>>): seq<string> {
    if past == [] then [] else AllLines(past[..|past| - 1]) + LinesOf(past[|past| - 1])
  }

  // ----- the run against its account

  ghost predicate Keeps(c: Control, a: Account, lines: seq<string>) {
    && c.framer == FeedAll(FRESH, a.chunks).f
    && lines == AllLines(a.past) + LinesOf(a.chunks)
    && (c.phase != Ready ==> a.chunks == [])
  }

  lemma FeedStep(chunks: seq<string>, bytes: string)
    ensures FeedAll(FRESH, chunks + [bytes]) == Then(FeedAll(FRESH, chunks), Feed(FeedAll(FRESH, chunks).f, bytes))
  {
    assert (chunks + [bytes])[..|chunks|] == chunks;
  }

  // A reading feeds the framer the data it gets to.
  lemma {:induction false} ReadFeeds(c: Control, asks: string -> bool, recvs: seq<Recv>, now: int, chunks: seq<string>)
    requires c.phase == Ready && c.framer == FeedAll(FRESH, chunks).f
    ensures var (r, all) := (Read(c, asks, recvs, now), chunks + DataOf(recvs));
      && FeedAll(FRESH, chunks).lines + r.lines == FeedAll(FRESH, all).lines
      && (r.c.phase == Ready ==> r.c.framer == FeedAll(FRESH, all).f)
      && (r.c.phase != Ready ==> r.c.framer == FRESH)
    decreases |recvs|
  {
    hide Feed, AnyAsks, FeedAll;
    if recvs == [] || !recvs[0].Data? {
      assert chunks + [] == chunks;
      assert FeedAll(FRESH, chunks).lines + [] == FeedAll(FRESH, chunks).lines;
    } else {
      var bytes, rest := recvs[0].bytes, recvs[1..];
      var o := Feed(c.framer, bytes);
      FeedStep(chunks, bytes);
      ReadFeeds(Hear(c, asks, o), asks, rest, now, chunks + [bytes]);
      assert chunks + [bytes] + DataOf(rest) == chunks + ([bytes] + DataOf(rest));
      var before, later := FeedAll(FRESH, chunks).lines, Read(Hear(c, asks, o), asks, rest, now).lines;
      assert before + o.lines + later == before + (o.lines + later);
    }
  }

  lemma FreshAccount()
    ensures FeedAll(FRESH, []).f == FRESH && LinesOf([]) == []
  {
    assert Parse("").lines == [];
  }

  lemma EndKeeps(a: Account)
    ensures AllLines(End(a).past) + LinesOf([]) == AllLines(a.past) + LinesOf(a.chunks)
  {
    FreshAccount();
    assert End(a).past[..|a.past|] == a.past;
    hide LinesOf;
    var lines := AllLines(End(a).past);
    assert lines + [] == lines;
  }

  lemma TurnKeeps(c: Control, t: Turn, a: Account, lines: seq<string>)
    requires Keeps(c, a, lines)
    ensures var o := Service(c, t);
      Keeps(o.c, NextAccount(a, c, t, o.c.phase), lines + o.lines)
  {
    FreshAccount();
    EndKeeps(a);
    assert lines + [] == lines;
    if c.phase == Ready && t.host == c.host && t.host != "" {
      ReadKeeps(c, t, a, lines);
    } else {
      hide LinesOf, AllLines, FeedAll, Read, DataOf;
    }
  }

  lemma ReadKeeps(c: Control, t: Turn, a: Account, lines: seq<string>)
    requires Keeps(c, a, lines) && c.phase == Ready && t.host == c.host && t.host != ""
    ensures var o := Service(c, t);
      Keeps(o.c, NextAccount(a, c, t, o.c.phase), lines + o.lines)
  {
    var r, o := Read(c, t.asks, t.recvs, t.now), Service(c, t);
    var given := a.(chunks := a.chunks + DataOf(t.recvs));
    ReadFeeds(c, t.asks, t.recvs, t.now, a.chunks);
    RequestKeeps(r.c, t);
    LinesExtend(a, given, lines, r.lines);
    assert NextAccount(a, c, t, o.c.phase) == if o.c.phase == Ready then given else End(given);
    hide Read, DataOf, NextAccount, Service, LinesOf, AllLines, FeedAll, RequestStatus;
    EndKeeps(given);
    FreshAccount();
  }

  lemma RequestKeeps(c: Control, t: Turn)
    ensures var e := RequestStatus(c, t); e.phase == Ready ==> c.phase == Ready && e.framer == c.framer
    ensures var e := RequestStatus(c, t); e.phase != Ready && c.phase == Ready ==> e.framer == FRESH
    ensures c.phase != Ready ==> RequestStatus(c, t) == c
  {
  }

  lemma LinesExtend(a: Account, given: Account, lines: seq<string>, more: seq<string>)
    requires given.past == a.past && lines == AllLines(a.past) + LinesOf(a.chunks)
    requires FeedAll(FRESH, a.chunks).lines + more == FeedAll(FRESH, given.chunks).lines
    ensures lines + more == AllLines(given.past) + LinesOf(given.chunks)
  {
    HandedLines(a.chunks);
    HandedLines(given.chunks);
    hide AllLines, FeedAll, Uncut, Parse, Concat, Bounds;
    assert AllLines(a.past) + LinesOf(a.chunks) + more == AllLines(a.past) + (LinesOf(a.chunks) + more);
  }

  // Main result: whatever the calls, what has been handed over is, session by session, what each
  // session's own bytes hold; nothing is carried over from a session that failed or was closed.
  lemma {:induction false} SessionsHandOver(turns: seq<Turn>)
    ensures var (o, a) := (Run(turns), AccountOf(turns));
      && o.lines == AllLines(a.past) + LinesOf(a.chunks)
      && o.c.framer == FeedAll(FRESH, a.chunks).f
      && (o.c.phase != Ready ==> a.chunks == [] && o.c.framer == FRESH)
  {
    FreshAccount();
    if turns != [] {
      var init := turns[..|turns| - 1];
      SessionsHandOver(init);
      hide Service, LinesOf, AllLines, FeedAll, NextAccount;
      TurnKeeps(Run(init).c, turns[|turns| - 1], AccountOf(init), Run(init).lines);
    }
  }

  // ----- getting ready, and staying so

  // A run that keeps to the session's host.
  predicate KeepsHost(host: string, turns: seq<Turn>) {
    host != "" && forall i :: 0 <= i < |turns| ==> turns[i].host == host
  }

  lemma OneMoreTurn(c: Control, turns: seq<Turn>, t: Turn)
    ensures RunFrom(c, turns + [t]).c == Service(RunFrom(c, turns).c, t).c
    ensures RunFrom(c, turns + [t]).lines == RunFrom(c, turns).lines + Service(RunFrom(c, turns).c, t).lines
  {
    hide Service;
    assert (turns + [t])[..|turns|] == turns;
  }

  lemma {:induction false} RunJoins(c: Control, first: seq<Turn>, rest: seq<Turn>)
    ensures RunFrom(c, first + rest).c == RunFrom(RunFrom(c, first).c, rest).c
    ensures RunFrom(c, first + rest).lines == RunFrom(c, first).lines + RunFrom(RunFrom(c, first).c, rest).lines
  {
    hide Service;
    if rest == [] {
      assert first + rest == first;
      assert RunFrom(c, first).lines + [] == RunFrom(c, first).lines;
    } else {
      var n := |rest| - 1;
      RunJoins(c, first, rest[..n]);
      assert first + rest == (first + rest[..n]) + [rest[n]] && rest == rest[..n] + [rest[n]];
      hide RunFrom;
      OneMoreTurn(c, first + rest[..n], rest[n]);
      OneMoreTurn(RunFrom(c, first).c, rest[..n], rest[n]);
      var l1, l2 := RunFrom(c, first).lines, RunFrom(RunFrom(c, first).c, rest[..n]).lines;
      var l3 := Service(RunFrom(RunFrom(c, first).c, rest[..n]).c, rest[n]).lines;
      assert l1 + l2 + l3 == l1 + (l2 + l3);
    }
  }

  // Nothing is tried before its time.
  lemma {:induction false} WaitsOut(c: Control, turns: seq<Turn>)
    requires c.phase == Idle && KeepsHost(c.host, turns)
    requires forall i :: 0 <= i < |turns| ==> turns[i].now < c.nextConnect
    ensures RunFrom(c, turns) == Outcome(c, [])
  {
    if turns != [] {
      WaitsOut(c, turns[..|turns| - 1]);
    }
  }

  lemma {:induction false} KeepsTrying(c: Control, turns: seq<Turn>)
    requires c.phase == Connecting && KeepsHost(c.host, turns)
    requires forall i :: 0 <= i < |turns| ==> turns[i].poll == NotYet && turns[i].now <= c.deadline
    ensures RunFrom(c, turns) == Outcome(c, [])
  {
    if turns != [] {
      KeepsTrying(c, turns[..|turns| - 1]);
    }
  }

  // Main result for connecting: an idle session waits for its time, tries, and is ready with the call
  // that finds the connection up, its status still to be asked for; refused, or not up after five
  // seconds, it is idle again for five seconds.
  lemma ConnectsInTime(c: Control, wait: seq<Turn>, try: Turn, polls: seq<Turn>, last: Turn)
    requires c.phase == Idle && c.framer == FRESH
    requires KeepsHost(c.host, wait) && KeepsHost(c.host, polls) && try.host == last.host == c.host
    requires forall i :: 0 <= i < |wait| ==> wait[i].now < c.nextConnect
    requires try.now >= c.nextConnect && try.connect == InProgress
    requires forall i :: 0 <= i < |polls| ==> polls[i].poll == NotYet && polls[i].now <= try.now + 5_000_000
    ensures var o := RunFrom(c, wait + [try] + polls + [last]);
      && o.lines == [] && o.c.host == c.host && o.c.framer == FRESH
      && (o.c.phase == Ready <==> last.poll == Up)
      && (o.c.phase == Ready ==> o.c.pending)
      && (last.poll == Refused || (last.poll == NotYet && last.now > try.now + 5_000_000) ==>
            o.c.phase == Idle && o.c.nextConnect == last.now + 5_000_000)
      && (last.poll == NotYet && last.now <= try.now + 5_000_000 ==> o.c.phase == Connecting)
  {
    var d := c.(phase := Connecting, deadline := try.now + 5_000_000);
    WaitsOut(c, wait);
    OneMoreTurn(c, wait, try);
    assert Service(c, try) == Outcome(d, []);
    KeepsTrying(d, polls);
    PollEnds(d, last, try.now);
    hide RunFrom, Service, KeepsHost;
    assert RunFrom(c, wait + [try]).lines == [];
    RunJoins(c, wait + [try], polls);
    OneMoreTurn(c, wait + [try] + polls, last);
  }

  // A new host is tried at once, whatever the wait was for; so is the old one when its time has come.
  lemma TriesInTurn(c: Control, t: Turn)
    requires t.host != "" && t.now >= 0
    requires t.host != c.host || (c.phase == Idle && t.now >= c.nextConnect)
    ensures var o := Service(c, t);
      && o.lines == [] && o.c.host == t.host
      && (t.connect == Connected ==> o.c.phase == Ready && o.c.pending)
      && (t.connect == InProgress ==> o.c.phase == Connecting && o.c.deadline == t.now + 5_000_000)
      && (t.connect == Failed ==> o.c.phase == Idle && o.c.nextConnect == t.now + 5_000_000)
  {
    hide Read;
  }

  lemma PollEnds(d: Control, last: Turn, tried: int)
    requires d.phase == Connecting && last.host == d.host && d.host != "" && d.deadline == tried + 5_000_000
    ensures var o := Service(d, last);
      && o.lines == [] && o.c.host == d.host && (d.framer == FRESH ==> o.c.framer == FRESH)
      && (o.c.phase == Ready <==> last.poll == Up)
      && (o.c.phase == Ready ==> o.c.pending)
      && (last.poll == Refused || (last.poll == NotYet && last.now > tried + 5_000_000) ==>
            o.c.phase == Idle && o.c.nextConnect == last.now + 5_000_000)
      && (last.poll == NotYet && last.now <= tried + 5_000_000 ==> o.c.phase == Connecting)
  {
    hide Read;
  }

  // What ends the reading.
  predicate Lost(recvs: seq<Recv>) {
    var n := |DataOf(recvs)|;
    n < |recvs| && (recvs[n] == Closed || recvs[n] == Broken)
  }

  lemma {:induction false} ReadEnds(c: Control, asks: string -> bool, recvs: seq<Recv>, now: int)
    requires c.phase == Ready
    ensures var r := Read(c, asks, recvs, now);
      if Lost(recvs) then r.c.phase == Idle && r.c.nextConnect == now + 5_000_000 && !r.c.pending
      else
        && r.c.phase == Ready && r.c.host == c.host && r.c.lastStatus == c.lastStatus
        && (r.c.pending <==> c.pending || AnyAsks(asks, r.lines))
    decreases |recvs|
  {
    if recvs != [] && recvs[0].Data? {
      hide Feed;
      var o := Feed(c.framer, recvs[0].bytes);
      var rest := Read(Hear(c, asks, o), asks, recvs[1..], now);
      ReadEnds(Hear(c, asks, o), asks, recvs[1..], now);
      AsksJoin(asks, o.lines, rest.lines);
    }
  }

  lemma AsksJoin(asks: string -> bool, s: seq<string>, t: seq<string>)
    ensures AnyAsks(asks, s + t) <==> AnyAsks(asks, s) || AnyAsks(asks, t)
  {
    if AnyAsks(asks, s) {
      var i :| 0 <= i < |s| && asks(s[i]);
      assert (s + t)[i] == s[i];
    }
    if AnyAsks(asks, t) {
      var i :| 0 <= i < |t| && asks(t[i]);
      assert (s + t)[|s| + i] == t[i];
    }
  }

  // Main result for a ready session: a call leaves it ready exactly when its socket reported no loss and
  // the status request, if one is wanted and the last is two seconds past, could be sent. Any other way
  // out is a five-second wait.
  lemma StaysReady(c: Control, t: Turn)
    requires c.phase == Ready && t.host == c.host && t.host != ""
    ensures var o := Service(c, t);
      var wanted := c.pending || AnyAsks(t.asks, o.lines);
      var due := wanted && t.now - c.lastStatus >= 2_000_000;
      && (o.c.phase == Ready <==> !Lost(t.recvs) && (due ==> t.sent))
      && (o.c.phase == Ready ==>
            o.c.pending == (wanted && !due) && o.c.lastStatus == (if due then t.now else c.lastStatus))
      && (o.c.phase != Ready ==> o.c.phase == Idle && o.c.nextConnect == t.now + 5_000_000)
  {
    ReadEnds(c, t.asks, t.recvs, t.now);
    hide Read, AnyAsks, Lost;
  }
}
