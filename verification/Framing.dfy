// components/snapclient/control_session.cpp, read_: newline framing of a byte stream that arrives in
// chunks, with lines past a cap discarded.
module Framing {
  import opened Numeric

  const RX_LINE_CAP: nat := 32768
  const RECV_MAX: nat := 512

  // rx_buf_ and discarding_
  datatype Framer = Framer(rx: string, discarding: bool)

  datatype Output = Output(f: Framer, lines: seq<string>)

  const FRESH: Framer := Framer("", false)

  // What two stretches of input hand over, one after the other.
  function Then(o: Output, r: Output): Output {
    Output(r.f, o.lines + r.lines)
  }

  // std::string::find('\n')
  function Find(s: string): (p: Option<nat>)
    ensures p.None? <==> '\n' !in s
    ensures p.Some? ==> p.value < |s| && s[p.value] == '\n' && '\n' !in s[..p.value]
  {
    if s == "" then None
    else if s[0] == '\n' then Some(0)
    else
      match Find(s[1..])
      case None => None
      case Some(q) =>
        assert s[..q + 1] == [s[0]] + s[1..][..q];
        Some(q + 1)
  }

  // The inner loop: complete lines leave the buffer, the first of them unheard when discarding.
  function Drain(f: Framer): Output
    decreases |f.rx|
  {
    match Find(f.rx)
    case None => Output(f, [])
    case Some(p) =>
      var rest := Drain(Framer(f.rx[p + 1..], false));
      Output(rest.f, (if f.discarding then [] else [f.rx[..p]]) + rest.lines)
  }

  function Cap(f: Framer): Framer {
    if |f.rx| > RX_LINE_CAP then Framer("", true) else f
  }

  // One pass of the outer loop.
  function Feed(f: Framer, chunk: string): Output {
    var d := Drain(f.(rx := f.rx + chunk));
    Output(Cap(d.f), d.lines)
  }

  function FeedAll(f: Framer, chunks: seq<string>): Output {
    if chunks == [] then Output(f, [])
    else
      var before := FeedAll(f, chunks[..|chunks| - 1]);
      Then(before, Feed(before.f, chunks[|chunks| - 1]))
  }

  // ----- the same, a byte at a time

  function Byte(f: Framer, b: char): Output {
    if b == '\n' then Output(FRESH, if f.discarding then [] else [f.rx]) else Output(f.(rx := f.rx + [b]), [])
  }

  function Bytes(f: Framer, s: string): Output {
    if s == "" then Output(f, [])
    else
      var before := Bytes(f, s[..|s| - 1]);
      Then(before, Byte(before.f, s[|s| - 1]))
  }

  lemma ThenJoins(o: Output, r: Output, u: Output)
    ensures Then(Then(o, r), u) == Then(o, Then(r, u))
  {
  }

  lemma ThenEnd(o: Output, r: Output)
    ensures Then(o, r).f == r.f
  {
  }

  lemma {:induction false} BytesJoin(f: Framer, s: string, t: string)
    ensures Bytes(f, s + t) == Then(Bytes(f, s), Bytes(Bytes(f, s).f, t))
  {
    if t == "" {
      assert s + t == s;
      assert Bytes(f, s).lines + [] == Bytes(f, s).lines;
    } else {
      var init, b := t[..|t| - 1], t[|t| - 1];
      BytesJoin(f, s, init);
      assert (s + t)[..|s + t| - 1] == s + init && (s + t)[|s + t| - 1] == b;
      hide Byte, Then;
      var mid := Bytes(f, s).f;
      ThenJoins(Bytes(f, s), Bytes(mid, init), Byte(Bytes(mid, init).f, b));
      ThenEnd(Bytes(f, s), Bytes(mid, init));
    }
  }

  lemma {:induction false} PlainBytes(f: Framer, s: string)
    requires '\n' !in s
    ensures Bytes(f, s) == Output(f.(rx := f.rx + s), [])
  {
    if s == "" {
      assert f.rx + s == f.rx;
    } else {
      PlainBytes(f, s[..|s| - 1]);
      assert f.rx + s == f.rx + s[..|s| - 1] + [s[|s| - 1]];
    }
  }

  lemma OneByte(f: Framer, b: char)
    ensures Bytes(f, [b]) == Byte(f, b)
  {
    assert [b][..0] == "";
    assert Bytes(f, "") == Output(f, []);
  }

  lemma LineBytes(f: Framer, s: string, t: string)
    requires '\n' !in s
    ensures Bytes(f, s + ['\n'] + t) ==
      Output(Bytes(FRESH, t).f, (if f.discarding then [] else [f.rx + s]) + Bytes(FRESH, t).lines)
  {
    BytesJoin(f, s + ['\n'], t);
    BytesJoin(f, s, ['\n']);
    PlainBytes(f, s);
    OneByte(f.(rx := f.rx + s), '\n');
    hide Bytes;
    var line: seq<string> := if f.discarding then [] else [f.rx + s];
    assert [] + line == line;
  }

  lemma DrainLine(f: Framer, s: string, t: string)
    requires '\n' !in s && f.rx == s + ['\n'] + t
    ensures Drain(f) == Output(Drain(Framer(t, false)).f, (if f.discarding then [] else [s]) + Drain(Framer(t, false)).lines)
  {
    var p := Find(f.rx);
    assert f.rx[|s|] == '\n';
    assert p.Some?;
    assert p.value >= |s|;
    assert p.value <= |s|;
    assert f.rx[..|s|] == s && f.rx[|s| + 1..] == t;
  }

  // Searching and erasing is reading byte by byte.
  lemma {:induction false} DrainIsBytes(f: Framer, s: string)
    requires '\n' !in f.rx
    ensures Drain(f.(rx := f.rx + s)) == Bytes(f, s)
    ensures '\n' !in Bytes(f, s).f.rx
    decreases |s|
  {
    match Find(s)
    case None =>
      PlainBytes(f, s);
    case Some(k) =>
      hide *;
      var u, v := s[..k], s[k + 1..];
      assert s == u + ['\n'] + v;
      LineBytes(f, u, v);
      assert f.rx + s == (f.rx + u) + ['\n'] + v;
      DrainLine(f.(rx := f.rx + s), f.rx + u, v);
      DrainIsBytes(FRESH, v);
      assert "" + v == v;
  }

  // ----- the lines of a stream

  datatype Text = Text(lines: seq<string>, rest: string)

  function Parse(s: string): Text {
    if s == "" then Text([], "")
    else
      var (t, b) := (Parse(s[..|s| - 1]), s[|s| - 1]);
      if b == '\n' then Text(t.lines + [t.rest], "") else t.(rest := t.rest + [b])
  }

  // Where the line after these begins.
  function Start(lines: seq<string>): nat {
    if lines == [] then 0 else Start(lines[..|lines| - 1]) + |lines[|lines| - 1]| + 1
  }

  lemma {:induction false} ParseCovers(s: string)
    ensures Start(Parse(s).lines) + |Parse(s).rest| == |s|
  {
    if s != "" {
      ParseCovers(s[..|s| - 1]);
      var t := Parse(s[..|s| - 1]);
      assert (t.lines + [t.rest])[..|t.lines|] == t.lines;
    }
  }

  // A chunk ended inside a line, more than the cap into it.
  ghost predicate Cut(bounds: set<nat>, start: int, length: nat) {
    exists b :: b in bounds && start + RX_LINE_CAP < b <= start + length
  }

  // The lines that no chunk end cuts that way.
  ghost function Uncut(lines: seq<string>, bounds: set<nat>): seq<string> {
    if lines == [] then []
    else
      var (init, last) := (lines[..|lines| - 1], lines[|lines| - 1]);
      Uncut(init, bounds) + if Cut(bounds, Start(init), |last|) then [] else [last]
  }

  function Concat(chunks: seq<string>): string {
    if chunks == [] then "" else Concat(chunks[..|chunks| - 1]) + chunks[|chunks| - 1]
  }

  // How much of the stream had arrived at the end of each chunk.
  function Bounds(chunks: seq<string>): set<nat> {
    if chunks == [] then {} else Bounds(chunks[..|chunks| - 1]) + {|Concat(chunks)|}
  }

  // ----- the framer against the stream

  // The framer has read s, with chunk ends at bounds so far, and handed over these lines.
  ghost predicate Tracks(o: Output, s: string, bounds: set<nat>) {
    var t := Parse(s);
    && o.lines == Uncut(t.lines, bounds)
    && (o.f.discarding <==> Cut(bounds, |s| - |t.rest|, |t.rest|))
    && (!o.f.discarding ==> o.f.rx == t.rest)
    && '\n' !in o.f.rx && |t.rest| <= |s|
    && (forall b :: b in bounds ==> b <= |s|)
  }

  lemma ParseByte(s: string, b: char)
    ensures Parse(s + [b]) ==
      var t := Parse(s);
      if b == '\n' then Text(t.lines + [t.rest], "") else Text(t.lines, t.rest + [b])
    ensures Start(Parse(s).lines) == |s| - |Parse(s).rest|
  {
    assert (s + [b])[..|s|] == s;
    ParseCovers(s);
  }

  lemma UncutLine(lines: seq<string>, line: string, bounds: set<nat>)
    ensures Uncut(lines + [line], bounds)
      == if Cut(bounds, Start(lines), |line|) then Uncut(lines, bounds) else Uncut(lines, bounds) + [line]
  {
    hide Start, Cut;
    assert (lines + [line])[..|lines|] == lines;
  }

  lemma TracksByte(o: Output, s: string, bounds: set<nat>, b: char)
    requires Tracks(o, s, bounds)
    ensures Tracks(Then(o, Byte(o.f, b)), s + [b], bounds)
  {
    ParseByte(s, b);
    var t := Parse(s);
    hide Parse, Uncut, Start;
    if b == '\n' {
      UncutLine(t.lines, t.rest, bounds);
    } else {
      assert o.lines + [] == o.lines;
      assert Cut(bounds, |s| - |t.rest|, |t.rest|) <==> Cut(bounds, |s| - |t.rest|, |t.rest| + 1);
    }
  }

  lemma {:induction false} TracksBytes(o: Output, s: string, bounds: set<nat>, u: string)
    requires Tracks(o, s, bounds)
    ensures Tracks(Then(o, Bytes(o.f, u)), s + u, bounds)
  {
    if u == "" {
      assert s + u == s && o.lines + [] == o.lines;
    } else {
      var init, b := u[..|u| - 1], u[|u| - 1];
      TracksBytes(o, s, bounds, init);
      var r := Bytes(o.f, init);
      hide Tracks, Byte, Then;
      TracksByte(Then(o, r), s + init, bounds, b);
      assert s + init + [b] == s + u;
      ThenEnd(o, r);
      ThenJoins(o, r, Byte(r.f, b));
    }
  }

  // A chunk end beyond a line does not cut it.
  lemma {:induction false} UncutBeyond(lines: seq<string>, bounds: set<nat>, b: nat)
    requires b >= Start(lines)
    ensures Uncut(lines, bounds + {b}) == Uncut(lines, bounds)
  {
    if lines != [] {
      var init, last := lines[..|lines| - 1], lines[|lines| - 1];
      UncutBeyond(init, bounds, b);
      assert Cut(bounds + {b}, Start(init), |last|) <==> Cut(bounds, Start(init), |last|);
    }
  }

  lemma TracksCap(o: Output, s: string, bounds: set<nat>)
    requires Tracks(o, s, bounds)
    ensures Tracks(Output(Cap(o.f), o.lines), s, bounds + {|s|})
  {
    var t := Parse(s);
    ParseCovers(s);
    UncutBeyond(t.lines, bounds, |s|);
    var start := |s| - |t.rest|;
    if |t.rest| > RX_LINE_CAP {
      assert |s| in bounds + {|s|} && start + RX_LINE_CAP < |s| <= start + |t.rest|;
    }
    if Cut(bounds, start, |t.rest|) {
      var c :| c in bounds && start + RX_LINE_CAP < c <= start + |t.rest|;
      assert c in bounds + {|s|};
    }
  }

  lemma {:induction false} FramerTracks(chunks: seq<string>)
    ensures Tracks(FeedAll(FRESH, chunks), Concat(chunks), Bounds(chunks))
  {
    if chunks != [] {
      var init, chunk := chunks[..|chunks| - 1], chunks[|chunks| - 1];
      FramerTracks(init);
      var o, s := FeedAll(FRESH, init), Concat(init);
      DrainIsBytes(o.f, chunk);
      hide Tracks, Drain, Bytes, Cap;
      TracksBytes(o, s, Bounds(init), chunk);
      TracksCap(Then(o, Bytes(o.f, chunk)), s + chunk, Bounds(init));
    }
  }

  // Main result: what is handed over is exactly the stream's complete lines, in order, without those
  // that a chunk end falls into past the cap.
  lemma HandedLines(chunks: seq<string>)
    ensures FeedAll(FRESH, chunks).lines == Uncut(Parse(Concat(chunks)).lines, Bounds(chunks))
  {
    FramerTracks(chunks);
  }

  // ----- what that means for lines within and past the cap

  ghost predicate SmallChunks(chunks: seq<string>) {
    forall i :: 0 <= i < |chunks| ==> |chunks[i]| <= RECV_MAX
  }

  // recv fills at most 512 bytes, so every stretch of 512 bytes holds a chunk end.
  lemma {:induction false} BoundWithin(chunks: seq<string>, x: nat)
    requires SmallChunks(chunks) && x < |Concat(chunks)|
    ensures exists b :: b in Bounds(chunks) && x < b <= x + RECV_MAX
  {
    if chunks != [] {
      var init := chunks[..|chunks| - 1];
      if x < |Concat(init)| {
        BoundWithin(init, x);
        var b :| b in Bounds(init) && x < b <= x + RECV_MAX;
        assert b in Bounds(chunks);
      } else {
        assert |Concat(chunks)| in Bounds(chunks);
      }
    }
  }

  // Whether a line of this length is handed over does not depend on the chunks.
  predicate ClearOfTheCap(line: string) {
    |line| <= RX_LINE_CAP || |line| >= RX_LINE_CAP + RECV_MAX
  }

  function WithinCap(lines: seq<string>): seq<string> {
    if lines == [] then []
    else
      var (init, last) := (lines[..|lines| - 1], lines[|lines| - 1]);
      WithinCap(init) + if |last| <= RX_LINE_CAP then [last] else []
  }

  // A line of the stream no longer than the cap is never cut; one longer than 33279 always is.
  lemma CutByLength(chunks: seq<string>, start: nat, length: nat)
    requires SmallChunks(chunks) && start + length < |Concat(chunks)|
    ensures length <= RX_LINE_CAP ==> !Cut(Bounds(chunks), start, length)
    ensures length >= RX_LINE_CAP + RECV_MAX ==> Cut(Bounds(chunks), start, length)
  {
    if length >= RX_LINE_CAP + RECV_MAX {
      BoundWithin(chunks, start + RX_LINE_CAP);
    }
  }

  lemma {:induction false} ShortLinesAreUncut(lines: seq<string>, chunks: seq<string>, i: nat)
    requires SmallChunks(chunks) && Start(lines) <= |Concat(chunks)| && i < |lines| && |lines[i]| <= RX_LINE_CAP
    ensures lines[i] in Uncut(lines, Bounds(chunks))
  {
    var init, last := lines[..|lines| - 1], lines[|lines| - 1];
    CutByLength(chunks, Start(init), |last|);
    hide Cut, Bounds, Concat, SmallChunks;
    if i < |init| {
      ShortLinesAreUncut(init, chunks, i);
    }
  }

  lemma {:induction false} UncutAreLines(lines: seq<string>, chunks: seq<string>, l: string)
    requires SmallChunks(chunks) && Start(lines) <= |Concat(chunks)| && l in Uncut(lines, Bounds(chunks))
    ensures l in lines && |l| < RX_LINE_CAP + RECV_MAX
  {
    var init, last := lines[..|lines| - 1], lines[|lines| - 1];
    CutByLength(chunks, Start(init), |last|);
    hide Cut, Bounds, Concat, SmallChunks;
    if l in Uncut(init, Bounds(chunks)) {
      UncutAreLines(init, chunks, l);
      assert lines == init + [last];
    }
  }

  lemma {:induction false} UncutIsWithinCap(lines: seq<string>, chunks: seq<string>)
    requires SmallChunks(chunks) && Start(lines) <= |Concat(chunks)|
    requires forall i :: 0 <= i < |lines| ==> ClearOfTheCap(lines[i])
    ensures Uncut(lines, Bounds(chunks)) == WithinCap(lines)
  {
    if lines != [] {
      var init, last := lines[..|lines| - 1], lines[|lines| - 1];
      CutByLength(chunks, Start(init), |last|);
      assert ClearOfTheCap(last);
      hide Cut, Bounds, Concat, SmallChunks;
      UncutIsWithinCap(init, chunks);
    }
  }

  // Main result: every complete line of at most 32768 bytes is handed over, and nothing is but
  // complete lines of the stream shorter than 33280 bytes.
  lemma LinesWithinTheCap(chunks: seq<string>)
    requires SmallChunks(chunks)
    ensures var (lines, handed) := (Parse(Concat(chunks)).lines, FeedAll(FRESH, chunks).lines);
      && (forall i :: 0 <= i < |lines| && |lines[i]| <= RX_LINE_CAP ==> lines[i] in handed)
      && (forall l :: l in handed ==> l in lines && |l| < RX_LINE_CAP + RECV_MAX)
  {
    HandedLines(chunks);
    ParseCovers(Concat(chunks));
    var lines := Parse(Concat(chunks)).lines;
    hide Uncut, Parse, Concat, FeedAll, SmallChunks, Start;
    forall i | 0 <= i < |lines| && |lines[i]| <= RX_LINE_CAP
      ensures lines[i] in FeedAll(FRESH, chunks).lines
    {
      ShortLinesAreUncut(lines, chunks, i);
    }
    forall l | l in FeedAll(FRESH, chunks).lines
      ensures l in lines && |l| < RX_LINE_CAP + RECV_MAX
    {
      UncutAreLines(lines, chunks, l);
    }
  }

  // Main result: two splits of a stream hand over the same lines unless some line is between 32769
  // and 33279 bytes long.
  lemma ChunksDoNotMatter(c1: seq<string>, c2: seq<string>)
    requires SmallChunks(c1) && SmallChunks(c2) && Concat(c1) == Concat(c2)
    requires forall i :: 0 <= i < |Parse(Concat(c1)).lines| ==> ClearOfTheCap(Parse(Concat(c1)).lines[i])
    ensures FeedAll(FRESH, c1).lines == FeedAll(FRESH, c2).lines
  {
    HandedLines(c1);
    HandedLines(c2);
    ParseCovers(Concat(c1));
    UncutIsWithinCap(Parse(Concat(c1)).lines, c1);
    UncutIsWithinCap(Parse(Concat(c1)).lines, c2);
  }

  // ----- the lines for which they do

  // A chunk for each byte.
  function Singles(s: string): seq<string> {
    if s == "" then [] else Singles(s[..|s| - 1]) + [s[|s| - 1..]]
  }

  // One chunk for the stretch from lo to hi, and one for each byte elsewhere.
  function SinglesAround(s: string, lo: nat, hi: nat): seq<string>
    requires lo <= hi <= |s|
  {
    if |s| > hi then SinglesAround(s[..|s| - 1], lo, hi) + [s[|s| - 1..]] else Singles(s[..lo]) + [s[lo..]]
  }

  lemma ConcatStep(chunks: seq<string>, c: string)
    ensures Concat(chunks + [c]) == Concat(chunks) + c
    ensures Bounds(chunks + [c]) == Bounds(chunks) + {|Concat(chunks)| + |c|}
    ensures SmallChunks(chunks) && |c| <= RECV_MAX ==> SmallChunks(chunks + [c])
  {
    var all := chunks + [c];
    assert all[..|all| - 1] == chunks && all[|all| - 1] == c;
    assert Concat(all) == Concat(chunks) + c;
    assert |Concat(chunks) + c| == |Concat(chunks)| + |c|;
  }

  lemma {:induction false} SinglesAre(s: string)
    ensures SmallChunks(Singles(s)) && Concat(Singles(s)) == s
    ensures forall b :: b in Bounds(Singles(s)) <==> 1 <= b <= |s|
  {
    if s != "" {
      var n := |s| - 1;
      SinglesAre(s[..n]);
      hide SmallChunks, Concat, Bounds;
      ConcatStep(Singles(s[..n]), s[n..]);
      assert s[..n] + s[n..] == s;
    } else {
      assert Bounds([]) == {};
    }
  }

  // A chunk ends at every byte but those between lo and hi.
  ghost predicate EndsOutside(bounds: set<nat>, lo: nat, hi: nat, n: nat) {
    forall b :: b in bounds <==> 1 <= b <= lo || hi <= b <= n
  }

  lemma AddEnd(bounds: set<nat>, lo: nat, hi: nat, n: nat)
    requires lo < hi <= n
    ensures n > hi && EndsOutside(bounds, lo, hi, n - 1) ==> EndsOutside(bounds + {n}, lo, hi, n)
    ensures n == hi && (forall b :: b in bounds <==> 1 <= b <= lo) ==> EndsOutside(bounds + {n}, lo, hi, n)
  {
  }

  lemma {:induction false} SinglesAroundAre(s: string, lo: nat, hi: nat)
    requires lo < hi <= |s| && hi - lo <= RECV_MAX
    ensures SmallChunks(SinglesAround(s, lo, hi)) && Concat(SinglesAround(s, lo, hi)) == s
    ensures EndsOutside(Bounds(SinglesAround(s, lo, hi)), lo, hi, |s|)
    decreases |s|
  {
    hide SmallChunks, Concat, Bounds, EndsOutside, Singles;
    if |s| > hi {
      var init := s[..|s| - 1];
      SinglesAroundAre(init, lo, hi);
      ConcatStep(SinglesAround(init, lo, hi), s[|s| - 1..]);
      AddEnd(Bounds(SinglesAround(init, lo, hi)), lo, hi, |s|);
      assert init + s[|s| - 1..] == s;
    } else {
      SinglesAre(s[..lo]);
      ConcatStep(Singles(s[..lo]), s[lo..]);
      AddEnd(Bounds(Singles(s[..lo])), lo, hi, |s|);
      assert s[..lo] + s[lo..] == s;
    }
  }

  lemma {:induction false} StartGrows(lines: seq<string>, i: nat)
    requires i < |lines|
    ensures Start(lines[..i]) + |lines[i]| + 1 <= Start(lines)
  {
    if i < |lines| - 1 {
      StartGrows(lines[..|lines| - 1], i);
      assert lines[..|lines| - 1][..i] == lines[..i];
    }
  }

  // Fewer chunk ends cut no more lines.
  lemma {:induction false} FewerCuts(lines: seq<string>, b1: set<nat>, b2: set<nat>, i: nat)
    requires b2 <= b1
    ensures |Uncut(lines, b1)| <= |Uncut(lines, b2)|
    ensures i < |lines| && Cut(b1, Start(lines[..i]), |lines[i]|) && !Cut(b2, Start(lines[..i]), |lines[i]|) ==>
      |Uncut(lines, b1)| < |Uncut(lines, b2)|
  {
    if lines != [] {
      var n := |lines| - 1;
      FewerCuts(lines[..n], b1, b2, i);
      assert Cut(b2, Start(lines[..n]), |lines[n]|) ==> Cut(b1, Start(lines[..n]), |lines[n]|);
      if i < n {
        assert lines[..n][..i] == lines[..i];
      }
    }
  }

  // Any line of 32769 to 33279 bytes is handed over when its bytes past the cap arrive in one chunk
  // with the newline, and dropped when they arrive one by one.
  lemma ChunksMatterNearTheCap(s: string, i: nat) returns (late: seq<string>, early: seq<string>)
    requires i < |Parse(s).lines| && !ClearOfTheCap(Parse(s).lines[i])
    ensures SmallChunks(late) && SmallChunks(early) && Concat(late) == Concat(early) == s
    ensures |FeedAll(FRESH, late).lines| > |FeedAll(FRESH, early).lines|
  {
    var lines := Parse(s).lines;
    var start, length := Start(lines[..i]), |lines[i]|;
    ParseCovers(s);
    StartGrows(lines, i);
    var lo, hi := start + RX_LINE_CAP, start + length + 1;
    assert lo < hi <= |s| && hi - lo <= RECV_MAX;
    late, early := SinglesAround(s, lo, hi), Singles(s);
    hide *;
    SinglesAroundAre(s, lo, hi);
    SinglesAre(s);
    HandedLines(late);
    HandedLines(early);
    OneCutFewer(Bounds(early), Bounds(late), start, length, |s|);
    FewerCuts(lines, Bounds(early), Bounds(late), i);
  }

  lemma OneCutFewer(b1: set<nat>, b2: set<nat>, start: nat, length: nat, n: nat)
    requires RX_LINE_CAP < length && start + length < n
    requires forall b :: b in b1 <==> 1 <= b <= n
    requires EndsOutside(b2, start + RX_LINE_CAP, start + length + 1, n)
    ensures b2 <= b1 && Cut(b1, start, length) && !Cut(b2, start, length)
  {
    assert start + length in b1;
  }

  ghost predicate Splits(chunks: seq<string>, s: string) {
    SmallChunks(chunks) && Concat(chunks) == s
  }

  // Main result: whether what is handed over depends on the chunks is decided by the stream. It does
  // exactly when some complete line is between 32769 and 33279 bytes long.
  lemma ChunksMatterExactly(s: string)
    ensures (exists c1, c2 :: Splits(c1, s) && Splits(c2, s) && FeedAll(FRESH, c1).lines != FeedAll(FRESH, c2).lines)
      <==> exists i :: 0 <= i < |Parse(s).lines| && !ClearOfTheCap(Parse(s).lines[i])
  {
    hide Parse, SmallChunks, Concat, FeedAll, ClearOfTheCap;
    if i :| 0 <= i < |Parse(s).lines| && !ClearOfTheCap(Parse(s).lines[i]) {
      var late, early := ChunksMatterNearTheCap(s, i);
      assert Splits(late, s) && Splits(early, s);
    } else if c1, c2 :| Splits(c1, s) && Splits(c2, s) && FeedAll(FRESH, c1).lines != FeedAll(FRESH, c2).lines {
      ChunksDoNotMatter(c1, c2);
      assert false;
    }
  }
}
