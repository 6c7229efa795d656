// components/snapclient/control_session.cpp: the session object around the framer, driven by one
// service call at a time. Which lines ask for a status is an input of the call, as handle_line_ goes by
// what it has learnt of its stream.
module ControlSession {
  import opened Framing
  import opened Numeric

  const RECONNECT_BACKOFF_US: int := 5_000_000
  const CONNECT_TIMEOUT_US: int := 5_000_000
  const STATUS_MIN_INTERVAL_US: int := 2_000_000

  datatype Phase = Idle | Connecting | Ready

  datatype Control = Control(phase: Phase, host: string, framer: Framer, pending: bool, nextConnect: int,
    deadline: int, lastStatus: int)

  const INITIAL: Control := Control(Idle, "", FRESH, false, 0, 0, 0)

  // What connect, the connection poll, recv and send report.
  datatype Connect = Connected | InProgress | Failed
  datatype Poll = Up | Refused | NotYet
  datatype Recv = Data(bytes: string) | Closed | Empty | Broken

  datatype Turn = Turn(now: int, host: string, connect: Connect, poll: Poll, recvs: seq<Recv>, asks: string -> bool,
    sent: bool)

  // The next state and the lines handed to handle_line_.
  datatype Outcome = Outcome(c: Control, lines: seq<string>)

  function Close(c: Control): Control {
    c.(phase := Idle, framer := FRESH, pending := false, host := "", nextConnect := 0)
  }

  function Fail(c: Control, now: int): Control {
    c.(phase := Idle, framer := FRESH, pending := false, nextConnect := now + RECONNECT_BACKOFF_US)
  }

  function StartConnect(c: Control, t: Turn): Control {
    match t.connect
    case Connected => c.(phase := Ready, pending := true)
    case InProgress => c.(phase := Connecting, deadline := t.now + CONNECT_TIMEOUT_US)
    case Failed => Fail(c, t.now)
  }

  function PollConnect(c: Control, t: Turn): Control {
    match t.poll
    case Up => c.(phase := Ready, pending := true)
    case Refused => Fail(c, t.now)
    case NotYet => if t.now > c.deadline then Fail(c, t.now) else c
  }

  predicate AnyAsks(asks: string -> bool, lines: seq<string>) {
    exists i :: 0 <= i < |lines| && asks(lines[i])
  }

  function Hear(c: Control, asks: string -> bool, o: Output): Control {
    c.(framer := o.f, pending := c.pending || AnyAsks(asks, o.lines))
  }

  // read_: until the socket is drained or the session is lost.
  function Read(c: Control, asks: string -> bool, recvs: seq<Recv>, now: int): Outcome
    decreases |recvs|
  {
    if recvs == [] then Outcome(c, [])
    else
      match recvs[0]
      case Empty => Outcome(c, [])
      case Closed => Outcome(Fail(c, now), [])
      case Broken => Outcome(Fail(c, now), [])
      case Data(bytes) =>
        var o := Feed(c.framer, bytes);
        var rest := Read(Hear(c, asks, o), asks, recvs[1..], now);
        Outcome(rest.c, o.lines + rest.lines)
  }

  function RequestStatus(c: Control, t: Turn): Control {
    if c.phase == Ready && c.pending && t.now - c.lastStatus >= STATUS_MIN_INTERVAL_US then
      if t.sent then c.(pending := false, lastStatus := t.now) else Fail(c, t.now)
    else c
  }

  // A new host starts from a closed session.
  function Retarget(c: Control, host: string): Control {
    if host == c.host then c else Close(c).(host := host)
  }

  function Service(c: Control, t: Turn): Outcome {
    if t.host == "" then Outcome(if c.phase != Idle then Close(c) else c, [])
    else
      var d := Retarget(c, t.host);
      match d.phase
      case Idle => Outcome(if t.now >= d.nextConnect then StartConnect(d, t) else d, [])
      case Connecting => Outcome(PollConnect(d, t), [])
      case Ready =>
        var r := Read(d, t.asks, t.recvs, t.now);
        Outcome(RequestStatus(r.c, t), r.lines)
  }

  class Session {
    var phase: Phase
    var host: string
    var rxBuf: string
    var discarding: bool
    var pending: bool
    var nextConnect: int
    var deadline: int
    var lastStatus: int
    // What handle_line_ has been given.
    var handled: seq<string>

    ghost function State(): Control
      reads this
    {
      Control(phase, host, Framer(rxBuf, discarding), pending, nextConnect, deadline, lastStatus)
    }

    constructor ()
      ensures State() == INITIAL && handled == []
    {
      phase, host, rxBuf, discarding, pending := Idle, "", "", false, false;
      nextConnect, deadline, lastStatus := 0, 0, 0;
      handled := [];
    }

    // close
    method CloseSession()
      modifies this
      ensures State() == Close(old(State())) && handled == old(handled)
    {
      phase, rxBuf, discarding, pending, host, nextConnect := Idle, "", false, false, "", 0;
    }

    // fail_
    method FailSession(now: int)
      modifies this
      ensures State() == Fail(old(State()), now) && handled == old(handled)
    {
      phase, rxBuf, discarding, pending := Idle, "", false, false;
      nextConnect := now + RECONNECT_BACKOFF_US;
    }

    // The inner loop of read_: complete lines leave the buffer.
    method TakeLines(asks: string -> bool)
      modifies this`rxBuf, this`discarding, this`pending, this`handled
      ensures var o := Drain(Framer(old(rxBuf), old(discarding)));
        && Framer(rxBuf, discarding) == o.f && handled == old(handled) + o.lines
        && pending == (old(pending) || AnyAsks(asks, o.lines))
    {
      ghost var before := Taken(handled, pending);
      ghost var all, out := Drain(Framer(rxBuf, discarding)), [];
      TakingBegins(asks, before, Framer(rxBuf, discarding));
      hide *;
      var pos := Find(rxBuf);
      while pos.Some?
        invariant pos == Find(rxBuf)
        invariant Taking(asks, before, all, Framer(rxBuf, discarding), out, Taken(handled, pending))
        decreases |rxBuf|
      {
        TakingGoesOn(asks, before, all, Framer(rxBuf, discarding), out, Taken(handled, pending));
        var line := rxBuf[..pos.value];
        rxBuf := rxBuf[pos.value + 1..];
        if discarding {
          discarding := false;
        } else {
          handled, pending, out := handled + [line], pending || asks(line), out + [line];
        }
        pos := Find(rxBuf);
      }
      TakingEnds(asks, before, all, Framer(rxBuf, discarding), out, Taken(handled, pending));
    }

    // One pass of the outer loop of read_: append, take the complete lines out, cap the rest.
    method Accept(asks: string -> bool, bytes: string)
      modifies this`rxBuf, this`discarding, this`pending, this`handled
      ensures var o := Feed(Framer(old(rxBuf), old(discarding)), bytes);
        && Framer(rxBuf, discarding) == o.f && handled == old(handled) + o.lines
        && pending == (old(pending) || AnyAsks(asks, o.lines))
    {
      hide Drain, AnyAsks;
      rxBuf := rxBuf + bytes;
      TakeLines(asks);
      if |rxBuf| > RX_LINE_CAP {
        rxBuf, discarding := "", true;
      }
    }

    // read_
    method Receive(asks: string -> bool, recvs: seq<Recv>, now: int)
      requires phase == Ready
      modifies this
      ensures State() == Read(old(State()), asks, recvs, now).c
      ensures handled == old(handled) + Read(old(State()), asks, recvs, now).lines
    {
      ghost var all, before := Read(State(), asks, recvs, now), handled;
      ReadingBegins(State(), asks, recvs, now, handled);
      hide Feed, Read, AnyAsks, Reading;
      var i := 0;
      while i < |recvs| && recvs[i].Data?
        invariant i <= |recvs| && phase == Ready
        invariant Reading(all, before, State(), asks, recvs, i, now, handled)
      {
        ReadingGoesOn(all, before, State(), asks, recvs, i, now, handled);
        Accept(asks, recvs[i].bytes);
        i := i + 1;
      }
      ReadingEnds(all, before, State(), asks, recvs, i, now, handled);
      if i < |recvs| && !recvs[i].Empty? {
        FailSession(now);
      }
    }

    method Open(t: Turn)
      requires phase != Ready
      modifies this
      ensures handled == old(handled)
      ensures State() == if old(phase) == Idle then StartConnect(old(State()), t) else PollConnect(old(State()), t)
    {
      if phase == Idle {
        match t.connect
        case Connected => phase, pending := Ready, true;
        case InProgress => phase, deadline := Connecting, t.now + CONNECT_TIMEOUT_US;
        case Failed => FailSession(t.now);
      } else {
        match t.poll
        case Up => phase, pending := Ready, true;
        case Refused => FailSession(t.now);
        case NotYet =>
          if t.now > deadline {
            FailSession(t.now);
          }
      }
    }

    // service
    method ServiceOnce(t: Turn)
      modifies this
      ensures State() == Service(old(State()), t).c
      ensures handled == old(handled) + Service(old(State()), t).lines
    {
      hide Read;
      if t.host == "" {
        if phase != Idle {
          CloseSession();
        }
        return;
      }
      if t.host != host {
        CloseSession();
        host := t.host;
      }
      if phase != Ready {
        if phase == Connecting || t.now >= nextConnect {
          Open(t);
        }
        return;
      }
      Receive(t.asks, t.recvs, t.now);
      if phase == Ready && pending && t.now - lastStatus >= STATUS_MIN_INTERVAL_US {
        if t.sent {
          pending, lastStatus := false, t.now;
        } else {
          FailSession(t.now);
        }
      }
    }
  }

  // handled and status_pending_
  datatype Taken = Taken(handled: seq<string>, pending: bool)

  // Part way through the inner loop: out has been taken of all that will be.
  ghost predicate Taking(asks: string -> bool, before: Taken, all: Output, f: Framer, out: seq<string>, t: Taken) {
    && all == Then(Output(f, out), Drain(f))
    && t.handled == before.handled + out && t.pending == (before.pending || AnyAsks(asks, out))
  }

  lemma TakingBegins(asks: string -> bool, before: Taken, f: Framer)
    ensures Taking(asks, before, Drain(f), f, [], before)
  {
    assert [] + Drain(f).lines == Drain(f).lines && before.handled + [] == before.handled;
  }

  lemma TakingGoesOn(asks: string -> bool, before: Taken, all: Output, f: Framer, out: seq<string>, t: Taken)
    requires Taking(asks, before, all, f, out, t) && Find(f.rx).Some?
    ensures var (line, rest) := (f.rx[..Find(f.rx).value], Framer(f.rx[Find(f.rx).value + 1..], false));
      if f.discarding then Taking(asks, before, all, rest, out, t)
      else Taking(asks, before, all, rest, out + [line], Taken(t.handled + [line], t.pending || asks(line)))
  {
    DrainOnce(f, out);
    var line := f.rx[..Find(f.rx).value];
    hide Drain, Then, AnyAsks, Find;
    assert before.handled + out + [line] == before.handled + (out + [line]);
    AskStep(asks, out, line);
  }

  lemma DrainOnce(f: Framer, out: seq<string>)
    requires Find(f.rx).Some?
    ensures var (line, rest) := (f.rx[..Find(f.rx).value], Framer(f.rx[Find(f.rx).value + 1..], false));
      Then(Output(f, out), Drain(f)) == Then(Output(rest, if f.discarding then out else out + [line]), Drain(rest))
  {
    hide Find, Drain;
    var p := Find(f.rx).value;
    var line, rest := f.rx[..p], Framer(f.rx[p + 1..], false);
    var d := Drain(rest);
    DrainFirst(f, p);
    Regroup(out, line, d.lines);
  }

  lemma DrainFirst(f: Framer, p: nat)
    requires Find(f.rx) == Some(p) && p < |f.rx|
    ensures var d := Drain(Framer(f.rx[p + 1..], false));
      Drain(f) == Output(d.f, (if f.discarding then [] else [f.rx[..p]]) + d.lines)
  {
    hide Find;
  }

  lemma Regroup(out: seq<string>, line: string, lines: seq<string>)
    ensures out + ([line] + lines) == out + [line] + lines
    ensures out + ([] + lines) == out + lines
  {
    assert [] + lines == lines;
  }

  lemma TakingEnds(asks: string -> bool, before: Taken, all: Output, f: Framer, out: seq<string>, t: Taken)
    requires Taking(asks, before, all, f, out, t) && Find(f.rx).None?
    ensures f == all.f && t.handled == before.handled + all.lines
    ensures t.pending == (before.pending || AnyAsks(asks, all.lines))
  {
    assert out + [] == out;
  }

  // Part way through the outer loop: the rest of the socket's data completes the outcome.
  ghost predicate Reading(all: Outcome, before: seq<string>, c: Control, asks: string -> bool, recvs: seq<Recv>, i: nat,
      now: int, handled: seq<string>)
  {
    && i <= |recvs|
    && var rest := Read(c, asks, recvs[i..], now);
    all.c == rest.c && before + all.lines == handled + rest.lines
  }

  lemma ReadingBegins(c: Control, asks: string -> bool, recvs: seq<Recv>, now: int, handled: seq<string>)
    ensures Reading(Read(c, asks, recvs, now), handled, c, asks, recvs, 0, now, handled)
  {
    assert recvs[0..] == recvs;
  }

  lemma ReadingGoesOn(all: Outcome, before: seq<string>, c: Control, asks: string -> bool, recvs: seq<Recv>, i: nat,
      now: int, handled: seq<string>)
    requires Reading(all, before, c, asks, recvs, i, now, handled) && i < |recvs| && recvs[i].Data?
    ensures var o := Feed(c.framer, recvs[i].bytes);
      Reading(all, before, Hear(c, asks, o), asks, recvs, i + 1, now, handled + o.lines)
  {
    hide Feed, AnyAsks;
    var o := Feed(c.framer, recvs[i].bytes);
    assert recvs[i..][0] == recvs[i] && recvs[i..][1..] == recvs[i + 1..];
    var rest := Read(Hear(c, asks, o), asks, recvs[i + 1..], now).lines;
    assert handled + (o.lines + rest) == handled + o.lines + rest;
  }

  lemma ReadingEnds(all: Outcome, before: seq<string>, c: Control, asks: string -> bool, recvs: seq<Recv>, i: nat,
      now: int, handled: seq<string>)
    requires Reading(all, before, c, asks, recvs, i, now, handled) && (i < |recvs| ==> !recvs[i].Data?)
    ensures all.c == if i < |recvs| && !recvs[i].Empty? then Fail(c, now) else c
    ensures handled == before + all.lines
  {
    hide Feed, AnyAsks;
    assert handled + [] == handled;
    if i < |recvs| {
      assert recvs[i..][0] == recvs[i];
    }
  }

  lemma AskStep(asks: string -> bool, lines: seq<string>, line: string)
    ensures AnyAsks(asks, lines + [line]) <==> AnyAsks(asks, lines) || asks(line)
  {
    var all := lines + [line];
    assert all[|lines|] == line;
    if AnyAsks(asks, lines) {
      var i :| 0 <= i < |lines| && asks(lines[i]);
      assert all[i] == lines[i];
    }
  }
}
