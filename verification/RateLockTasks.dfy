// components/i2s_rate_lock/rate_lock.cpp: set_trim_ppm on the player task against tick on the
// speaker task, one load or store at a time, in any interleaving (sequentially consistent).
module RateLockTasks {

  // A published cell is identified by the number of the publication that wrote it; `reg`, `last` and
  // `base`, the value taken for the driver's, are register values.
  datatype Shared = Shared(lo: nat, hi: nat, duty: nat, on: bool, reg: nat, last: nat, base: nat)

  // The player task between two of its accesses. Publishing stores lo, hi, duty, then the flag;
  // a single value clears the flag, compares, then stores the register and last_frac_val_. Reading a
  // baseline, after the flag is cleared, loads the register, last_frac_val_ and, if those differ, the
  // flag; a value it does not recognise becomes the baseline and is stored in last_frac_val_. (Before
  // its first write the lock recognises nothing, and reads the driver's value again to no effect.)
  datatype Player =
    | PIdle
    | PHi(k: nat)
    | PDuty(k: nat)
    | POn
    | PCompare(val: nat)
    | PReg(val: nat)
    | PLast(val: nat)
    | PLoadReg
    | PLoadLast(frac: nat)
    | PLoadOn(frac: nat)
    | PTake(frac: nat)

  // The speaker task: flag, duty, the chosen end, comparison, register, last_frac_val_.
  datatype Speaker =
    | SIdle
    | SDuty
    | SEnd(duty: nat)
    | SCompare(duty: nat, end: nat, want: nat)
    | SReg(want: nat)
    | SLast(want: nat)

  datatype System = System(m: Shared, p: Player, s: Speaker, published: nat)

  // The inputs of a step: what the player asks for next, and which end and register value the
  // sigma-delta selects. Rebaseline is a trim that finds invalidate_baseline called: it clears the
  // flag and reads.
  datatype Action =
    | Publish
    | Single(val: nat)
    | Rebaseline
    | PlayerStep
    | SpeakerStep(useHi: bool, want: nat)

  // The register and its record hold the driver's value, and the lock has taken it for its baseline.
  function Start(reg: nat): System {
    System(Shared(0, 0, 0, false, reg, reg, reg), PIdle, SIdle, 0)
  }

  function PlayerNext(c: System): System {
    match c.p
    case PIdle => c
    case PHi(k) => c.(m := c.m.(hi := k), p := PDuty(k))
    case PDuty(k) => c.(m := c.m.(duty := k), p := POn)
    case POn => c.(m := c.m.(on := true), p := PIdle)
    case PCompare(val) => c.(p := if val != c.m.last then PReg(val) else PIdle)
    case PReg(val) => c.(m := c.m.(reg := val), p := PLast(val))
    case PLast(val) => c.(m := c.m.(last := val), p := PIdle)
    case PLoadReg => c.(p := PLoadLast(c.m.reg))
    case PLoadLast(frac) => c.(p := if frac == c.m.last then PIdle else PLoadOn(frac))
    // The dither values would be compared if the flag were set; the player itself has cleared it.
    case PLoadOn(frac) => c.(p := if c.m.on then PIdle else PTake(frac))
    case PTake(frac) => c.(m := c.m.(last := frac, base := frac), p := PIdle)
  }

  function SpeakerNext(c: System, useHi: bool, want: nat): System {
    match c.s
    case SIdle => if c.m.on then c.(s := SDuty) else c
    case SDuty => c.(s := SEnd(c.m.duty))
    case SEnd(d) => c.(s := SCompare(d, if useHi then c.m.hi else c.m.lo, want))
    case SCompare(_, _, w) => c.(s := if w != c.m.last then SReg(w) else SIdle)
    case SReg(w) => c.(m := c.m.(reg := w), s := SLast(w))
    case SLast(w) => c.(m := c.m.(last := w), s := SIdle)
  }

  function Next(c: System, a: Action): System {
    match a
    case Publish =>
      if c.p.PIdle? then c.(m := c.m.(lo := c.published + 1), p := PHi(c.published + 1), published := c.published + 1)
      else c
    case Single(val) => if c.p.PIdle? then c.(m := c.m.(on := false), p := PCompare(val)) else c
    case Rebaseline => if c.p.PIdle? then c.(m := c.m.(on := false), p := PLoadReg) else c
    case PlayerStep => PlayerNext(c)
    case SpeakerStep(useHi, want) => SpeakerNext(c, useHi, want)
  }

  function Execute(c: System, run: seq<Action>): System {
    if run == [] then c else Next(Execute(c, run[..|run| - 1]), run[|run| - 1])
  }

  ghost predicate Ordered(c: System) {
    && c.m.duty <= c.m.hi <= c.m.lo == c.published
    && (c.p.PHi? ==> c.p.k == c.published)
    && (c.p.PDuty? ==> c.p.k == c.m.hi == c.published)
    && (c.s.SEnd? ==> c.s.duty <= c.m.duty)
    && (c.s.SCompare? ==> c.s.duty <= c.s.end)
  }

  lemma OrderedIsKept(c: System, a: Action)
    requires Ordered(c)
    ensures Ordered(Next(c, a))
  {
  }

  // Main result: in every interleaving, a tick that has read the duty of one publication reads a
  // bracket end of that publication or of a later one, never of an earlier one.
  lemma {:induction false} NewDutyNeverMeetsOldBracket(c: System, run: seq<Action>)
    requires Ordered(c)
    ensures var c' := Execute(c, run); Ordered(c') && (c'.s.SCompare? ==> c'.s.end >= c'.s.duty)
  {
    if run != [] {
      NewDutyNeverMeetsOldBracket(c, run[..|run| - 1]);
      OrderedIsKept(Execute(c, run[..|run| - 1]), run[|run| - 1]);
    }
  }

  lemma ExecuteOne(c: System, run: seq<Action>, a: Action)
    ensures Execute(c, run + [a]) == Next(Execute(c, run), a)
  {
    assert (run + [a])[..|run|] == run;
  }

  lemma ExecuteFour(c: System, run: seq<Action>, a1: Action, a2: Action, a3: Action, a4: Action)
    ensures Execute(c, run + [a1, a2, a3, a4]) == Next(Next(Next(Next(Execute(c, run), a1), a2), a3), a4)
  {
    hide Execute, Next;
    ExecuteOne(c, run, a1);
    ExecuteOne(c, run + [a1], a2);
    ExecuteOne(c, run + [a1] + [a2], a3);
    ExecuteOne(c, run + [a1] + [a2] + [a3], a4);
    assert run + [a1, a2, a3, a4] == run + [a1] + [a2] + [a3] + [a4];
  }

  const TICK: Action := SpeakerStep(false, 9)

  // Publication one, with dithering on.
  const PUBLISHED: seq<Action> := [Publish, PlayerStep, PlayerStep, PlayerStep]
  const DITHERING: System := System(Shared(1, 1, 1, true, 7, 7, 7), PIdle, SIdle, 1)

  // A tick that has stored 9 in the register and not yet recorded it.
  const TICKING: seq<Action> := PUBLISHED + [TICK, TICK, TICK, TICK] + [TICK]
  const STORED: System := System(Shared(1, 1, 1, true, 9, 7, 7), PIdle, SLast(9), 1)

  lemma Dithers()
    ensures Execute(Start(7), PUBLISHED) == DITHERING
  {
    assert [] + PUBLISHED == PUBLISHED;
    ExecuteFour(Start(7), [], Publish, PlayerStep, PlayerStep, PlayerStep);
    assert Execute(Start(7), []) == Start(7);
    hide Execute;
  }

  lemma Stores()
    ensures Execute(Start(7), PUBLISHED + [TICK, TICK, TICK, TICK]) == DITHERING.(s := SReg(9))
    ensures Execute(Start(7), TICKING) == STORED
  {
    Dithers();
    hide Execute;
    ExecuteFour(Start(7), PUBLISHED, TICK, TICK, TICK, TICK);
    ExecuteOne(Start(7), PUBLISHED + [TICK, TICK, TICK, TICK], TICK);
  }

  // The converse pairing does happen: with dithering on, a tick may combine the duty of the first
  // publication with the bracket of the second.
  lemma OldDutyCanMeetNewBracket()
    ensures exists run: seq<Action> ::
      var c := Execute(Start(7), run); c.s.SCompare? && c.s.duty == 1 && c.s.end == 2
  {
    Dithers();
    hide Execute;
    ExecuteFour(Start(7), PUBLISHED, TICK, TICK, Publish, TICK);
    assert Execute(Start(7), PUBLISHED + [TICK, TICK, Publish, TICK]).s == SCompare(1, 2, 9);
  }

  // ----- the register against last_frac_val_

  // Who made an access, and the value; a baseline reading records and does not store.
  datatype Task = PlayerTask | SpeakerTask | Reading

  datatype Access = Access(task: Task, val: nat)

  // The last store to the register and the last record of one in last_frac_val_.
  datatype History = History(store: Access, record: Access)

  function Watch(c: System, a: Action, h: History): History {
    match a
    case PlayerStep =>
      if c.p.PReg? then h.(store := Access(PlayerTask, c.p.val))
      else if c.p.PLast? then h.(record := Access(PlayerTask, c.p.val))
      else if c.p.PTake? then h.(record := Access(Reading, c.p.frac))
      else h
    case SpeakerStep(_, _) =>
      if c.s.SReg? then h.(store := Access(SpeakerTask, c.s.want))
      else if c.s.SLast? then h.(record := Access(SpeakerTask, c.s.want))
      else h
    case _ => h
  }

  function HistoryOf(reg: nat, run: seq<Action>): History {
    if run == [] then History(Access(Reading, reg), Access(Reading, reg))
    else
      Watch(Execute(Start(reg), run[..|run| - 1]), run[|run| - 1], HistoryOf(reg, run[..|run| - 1]))
  }

  // A task has stored the register and not yet recorded the value.
  predicate Recording(c: System) {
    c.p.PLast? || c.s.SLast?
  }

  // A task that is not between its store and its record has recorded its last store, so when it was
  // also the last of all to do either, the two are of one value.
  ghost predicate Accounts(c: System, h: History) {
    && c.m.reg == h.store.val && c.m.last == h.record.val
    && (h.store.task == PlayerTask ==> if c.p.PLast? then c.p.val == h.store.val
                                     else h.record.task == PlayerTask ==> h.record.val == h.store.val)
    && (h.store.task == SpeakerTask ==> if c.s.SLast? then c.s.want == h.store.val
                                      else h.record.task == SpeakerTask ==> h.record.val == h.store.val)
    && (h.store.task == Reading ==>
          && !Recording(c) && h.record.val == h.store.val
          && (c.p.PLoadLast? || c.p.PLoadOn? || c.p.PTake? ==> c.p.frac == h.store.val))
  }

  lemma AccountsAreKept(c: System, a: Action, h: History)
    requires Accounts(c, h)
    ensures Accounts(Next(c, a), Watch(c, a, h))
  {
  }

  lemma {:induction false} HistoryAccounts(reg: nat, run: seq<Action>)
    ensures Accounts(Execute(Start(reg), run), HistoryOf(reg, run))
  {
    if run != [] {
      HistoryAccounts(reg, run[..|run| - 1]);
      hide Accounts, Watch, Next;
      AccountsAreKept(Execute(Start(reg), run[..|run| - 1]), run[|run| - 1], HistoryOf(reg, run[..|run| - 1]));
    }
  }

  // Both tasks hold a value to put on record: the speaker one it has stored, the player one it has
  // stored or, reading, a different one it has loaded.
  predicate Overlap(c: System) {
    && c.s.SLast?
    && (c.p.PLast? || ((c.p.PLoadLast? || c.p.PLoadOn? || c.p.PTake?) && c.p.frac != c.s.want))
  }

  // Somewhere in the run they did.
  predicate Overlapped(reg: nat, run: seq<Action>) {
    Overlap(Execute(Start(reg), run)) || (run != [] && Overlapped(reg, run[..|run| - 1]))
  }

  // As long as they have not, the register holds the value on record, or the one a task is about to
  // put there.
  ghost predicate Orderly(c: System) {
    && (c.s.SLast? ==> c.m.reg == c.s.want)
    && (c.p.PLast? ==> c.m.reg == c.p.val)
    && (c.p.PLoadLast? || c.p.PLoadOn? || c.p.PTake? ==> c.p.frac == c.m.reg)
    && (!Recording(c) ==> c.m.reg == c.m.last)
  }

  lemma OrderlyIsKept(c: System, a: Action)
    requires Orderly(c) && !Overlap(c) && !Overlap(Next(c, a))
    ensures Orderly(Next(c, a))
  {
  }

  lemma {:induction false} OrderlyOrOverlapped(reg: nat, run: seq<Action>)
    ensures Overlapped(reg, run) || Orderly(Execute(Start(reg), run))
  {
    if run != [] && !Overlapped(reg, run) {
      var init := run[..|run| - 1];
      hide Overlap, Orderly, Next;
      assert !Overlapped(reg, init) && !Overlap(Execute(Start(reg), run));
      assert !Overlap(Execute(Start(reg), init));
      assert Execute(Start(reg), run) == Next(Execute(Start(reg), init), run[|run| - 1]);
      OrderlyOrOverlapped(reg, init);
      OrderlyIsKept(Execute(Start(reg), init), run[|run| - 1]);
    }
  }

  // Main result: whenever no task is between its store and its record, the register holds the value
  // on record if one task did the last of both, and if the tasks have never overlapped. So it takes an
  // overlap, and a record by the other task after the last storer's own, for them to be left apart.
  lemma RecordFollowsRegister(reg: nat, run: seq<Action>)
    ensures var (c, h) := (Execute(Start(reg), run), HistoryOf(reg, run));
      !Recording(c) && c.m.reg != c.m.last ==> h.store.task != h.record.task && Overlapped(reg, run)
  {
    HistoryAccounts(reg, run);
    OrderlyOrOverlapped(reg, run);
    hide Execute, HistoryOf, Overlapped;
  }

  // With both tasks between store and record, what the register holds is one of the two values, and
  // once both have recorded, the two agree exactly when the value recorded last is that one.
  lemma OverlapOutcome(c: System, playerFirst: bool, useHi: bool, want: nat)
    requires c.p.PLast? && c.s.SLast?
    ensures var (first, second) := if playerFirst then (PlayerStep, SpeakerStep(useHi, want))
        else (SpeakerStep(useHi, want), PlayerStep);
      var e := Next(Next(c, first), second);
      && !Recording(e) && e.m.reg == c.m.reg
      && (e.m.reg == e.m.last <==> c.m.reg == if playerFirst then c.s.want else c.p.val)
  {
  }

  // Nor does it take two tasks for them to differ meanwhile: one tick is enough.
  lemma OneTickPartsThem()
    ensures exists run: seq<Action> ::
      var c := Execute(Start(7), run); c.p.PIdle? && c.s == SLast(9) && c.m.reg == 9 && c.m.last == 7
  {
    Stores();
    hide Execute;
    assert Execute(Start(7), TICKING) == STORED;
  }

  // The player's single value 8, stored before the tick's 9 or after it.
  const TICK_LAST: seq<Action> := PUBLISHED + [TICK, TICK, TICK, TICK] + [Single(8), PlayerStep, PlayerStep, TICK]
  const TICK_FIRST: seq<Action> := PUBLISHED + [TICK, TICK, TICK, TICK] + [TICK, Single(8), PlayerStep, PlayerStep]

  lemma Overlaps()
    ensures Execute(Start(7), TICK_LAST) == System(Shared(1, 1, 1, false, 9, 7, 7), PLast(8), SLast(9), 1)
    ensures Execute(Start(7), TICK_FIRST) == System(Shared(1, 1, 1, false, 8, 7, 7), PLast(8), SLast(9), 1)
  {
    Stores();
    hide Execute;
    ExecuteFour(Start(7), PUBLISHED + [TICK, TICK, TICK, TICK], Single(8), PlayerStep, PlayerStep, TICK);
    ExecuteFour(Start(7), PUBLISHED + [TICK, TICK, TICK, TICK], TICK, Single(8), PlayerStep, PlayerStep);
  }

  // Both outcomes of an overlap happen: with both tasks idle and dithering off, the register and the
  // record agree after one order of the accesses and differ after the other.
  lemma OverlapEndsEitherWay()
    ensures var (apart, together) := (Execute(Start(7), TICK_FIRST + [PlayerStep] + [TICK]),
        Execute(Start(7), TICK_LAST + [PlayerStep] + [TICK]));
      && apart.p.PIdle? && apart.s.SIdle? && !apart.m.on && apart.m.reg == 8 && apart.m.last == 9
      && together.p.PIdle? && together.s.SIdle? && !together.m.on && together.m.reg == together.m.last == 9
  {
    Overlaps();
    hide Execute;
    ExecuteOne(Start(7), TICK_FIRST, PlayerStep);
    ExecuteOne(Start(7), TICK_FIRST + [PlayerStep], TICK);
    ExecuteOne(Start(7), TICK_LAST, PlayerStep);
    ExecuteOne(Start(7), TICK_LAST + [PlayerStep], TICK);
  }

  // ----- reading a baseline beside a tick

  // Nothing but steps of the speaker.
  ghost predicate SpeakerOnly(run: seq<Action>) {
    forall i :: 0 <= i < |run| ==> run[i].SpeakerStep?
  }

  // The speaker records a value that is not the one on record.
  predicate Changes(c: System, a: Action) {
    a.SpeakerStep? && c.s.SLast? && c.s.want != c.m.last
  }

  predicate ChangesIn(c: System, run: seq<Action>) {
    run != [] && (ChangesIn(c, run[..|run| - 1]) || Changes(Execute(c, run[..|run| - 1]), run[|run| - 1]))
  }

  // The speaker records this value, and it is not the one on record.
  predicate RecordsIn(c: System, run: seq<Action>, val: nat) {
    run != [] &&
    var before := Execute(c, run[..|run| - 1]);
    RecordsIn(c, run[..|run| - 1], val) || (Changes(before, run[|run| - 1]) && before.s.want == val)
  }

  // With the flag cleared, at most one tick is still under way: until it records, the record is what
  // it was; after it has, the speaker is idle for good.
  lemma {:induction false} OneTickAtMost(c: System, run: seq<Action>)
    requires SpeakerOnly(run) && !c.m.on
    ensures var e := Execute(c, run);
      && !e.m.on && e.p == c.p && e.m.base == c.m.base
      && (e.m.last != c.m.last <==> ChangesIn(c, run))
      && (ChangesIn(c, run) ==> e.s.SIdle?)
      && (c.s.SLast? ==> e.m.reg == c.m.reg && (e.s == c.s || (e.s.SIdle? && e.m.last == c.s.want)))
      && (c.s.SLast? && e.s == c.s ==> e.m.last == c.m.last)
  {
    if run != [] {
      var n := |run| - 1;
      OneTickAtMost(c, run[..n]);
      assert run[n].SpeakerStep?;
    }
  }

  // Between the two loads, as the first leaves things: the flag is cleared, and the register and the
  // record agree unless the tick under way has stored and not recorded.
  ghost predicate Loaded(c: System) {
    && c.p == PLoadLast(c.m.reg) && !c.m.on
    && (c.s.SLast? ==> c.s.want == c.m.reg)
    && (!c.s.SLast? ==> c.m.reg == c.m.last)
  }

  // A tick has stored a value that is not on record.
  predicate Unrecorded(c: System) {
    c.s.SLast? && c.s.want != c.m.last
  }

  // Main result: the baseline read recognises the register's value exactly when the tick it found
  // with an unrecorded value, if there was one, records it between the two loads, and no tick records
  // a new one that was not yet stored at the first.
  lemma ReadRecognises(c: System, run: seq<Action>)
    requires Loaded(c) && SpeakerOnly(run)
    ensures var e := Next(Execute(c, run), PlayerStep);
      && (e.p.PIdle? <==> (Unrecorded(c) <==> ChangesIn(c, run)))
      && (!e.p.PIdle? ==> e.p == PLoadOn(c.m.reg))
  {
    OneTickAtMost(c, run);
    hide Execute, ChangesIn;
  }

  lemma {:induction false} RecordIs(c: System, run: seq<Action>, val: nat)
    requires SpeakerOnly(run) && !c.m.on
    ensures RecordsIn(c, run, val) ==> ChangesIn(c, run)
    ensures Execute(c, run).m.last == val <==> RecordsIn(c, run, val) || (c.m.last == val && !ChangesIn(c, run))
  {
    if run != [] {
      var n := |run| - 1;
      var before, a := Execute(c, run[..n]), run[n];
      RecordIs(c, run[..n], val);
      OneTickAtMost(c, run[..n]);
      OneTickAtMost(c, run);
      StepRecords(before, a, val);
    }
  }

  lemma StepRecords(c: System, a: Action, val: nat)
    requires a.SpeakerStep?
    ensures Next(c, a).m.last == val <==> (Changes(c, a) && c.s.want == val) || (!Changes(c, a) && c.m.last == val)
  {
  }

  // Whatever came before: the value loaded is recognised exactly when it was on record and stays so,
  // or the tick under way puts it there.
  lemma ReadRecognisesExactly(c: System, run: seq<Action>)
    requires c.p.PLoadLast? && !c.m.on && SpeakerOnly(run)
    ensures var e := Next(Execute(c, run), PlayerStep);
      && (e.p.PIdle? <==> RecordsIn(c, run, c.p.frac) || (c.m.last == c.p.frac && !ChangesIn(c, run)))
      && (!e.p.PIdle? ==> e.p == PLoadOn(c.p.frac))
  {
    OneTickAtMost(c, run);
    RecordIs(c, run, c.p.frac);
    hide Execute, ChangesIn, RecordsIn;
  }

  // A register and record that were apart before, with no tick under way, are never recognised.
  lemma PartedIsNotRecognised(c: System, run: seq<Action>)
    requires c.p == PLoadLast(c.m.reg) && !c.m.on && SpeakerOnly(run) && c.s.SIdle? && c.m.reg != c.m.last
    ensures Next(Execute(c, run), PlayerStep).p == PLoadOn(c.m.reg)
  {
    IdleStays(c, run);
  }

  lemma {:induction false} IdleStays(c: System, run: seq<Action>)
    requires c.s.SIdle? && !c.m.on && SpeakerOnly(run)
    ensures Execute(c, run) == c
  {
    if run != [] {
      IdleStays(c, run[..|run| - 1]);
      assert run[|run| - 1].SpeakerStep?;
    }
  }

  // What follows when it does not: the value loaded, which is the lock's own unless it has never
  // written one, becomes the baseline, and the record of the register.
  lemma UnrecognisedBecomesBaseline(c: System, run1: seq<Action>, run2: seq<Action>)
    requires c.p.PLoadOn? && !c.m.on && SpeakerOnly(run1) && SpeakerOnly(run2)
    ensures var e := Next(Execute(Next(Execute(c, run1), PlayerStep), run2), PlayerStep);
      e.p.PIdle? && e.m.base == e.m.last == c.p.frac
  {
    OneTickAtMost(c, run1);
    OneTickAtMost(Next(Execute(c, run1), PlayerStep), run2);
    hide Execute, ChangesIn;
  }

  // It happens in the single window of one tick: the register holds the tick's 9 and the record the
  // driver's 7, and the lock's own 9 is taken for the driver's.
  lemma OwnValueBecomesBaseline()
    ensures exists run: seq<Action> ::
      var c := Execute(Start(7), run); c.p.PIdle? && c.m.base == 9
  {
    Stores();
    hide Execute;
    ExecuteFour(Start(7), TICKING, Rebaseline, PlayerStep, PlayerStep, PlayerStep);
    ExecuteOne(Start(7), TICKING + [Rebaseline, PlayerStep, PlayerStep, PlayerStep], PlayerStep);
    assert Execute(Start(7), TICKING + [Rebaseline, PlayerStep, PlayerStep, PlayerStep] + [PlayerStep]).m.base == 9;
  }
}
