// Every run of the audit sink: calls, stops, crashes and the processes that follow them.

module AuditRuns {
  import opened Basics
  import opened AuditTrail
  import opened AuditSink

  datatype Step =
    | Write(call: Call)                    // a call to record
    | Shutdown(seals: bool, today: int)    // an orderly stop, then a new process on the day `today`
    | Crash(today: int)                    // a process that ends without one, then a new one

  /** The directory a process leaves to the next. */
  function Left(s: State, step: Step): State { if step.Shutdown? then Closed(s, step.seals) else s }

  function Next(hash: Hash, s: State, retention: nat, step: Step): State {
    match step
    case Write(c) => Recorded(hash, s, retention, c).0
    case Shutdown(_, today) => Prepared(Left(s, step), retention, today)
    case Crash(today) => Prepared(Left(s, step), retention, today)
  }

  // --- When a sink stays sound -----------------------------------------------------------------

  /** A seal names a head the trail still has. */
  ghost predicate SealTrue(trail: seq<Record>, seal: Seal) {
    seal.records <= |trail| && seal.head == Before(trail, seal.records)
  }

  ghost predicate SealsTrue(s: State) {
    forall d :: d in s.seals ==> SealTrue(Trail(s.days), s.seals[d])
  }

  /** The trail verifies with its seals, and the next record will continue it. */
  ghost predicate Sound(hash: Hash, s: State) { InStep(hash, s) && SealsTrue(s) }

  /** A call keeps the sink sound: its day cannot be opened at all; or no record expires, and the line
      is not written, or is written and flushed with no record on a later day. */
  ghost predicate SteadyCall(s: State, retention: nat, c: Call) {
    || (Rolled(s, c.day) && !c.opens)
    || (NothingExpires(s, retention, c.day)
        && (c.append.NotWritten? || (c.append.Written? && NothingLater(s.days, c.day))))
  }

  /** A new process keeps the directory sound: it finds no record left and no seal of one, or no
      record has expired and the latest day holds one. */
  ghost predicate SteadyStart(s: State, retention: nat, today: int) {
    var kept := Prepared(s, retention, today);
    if Trail(kept.days) == [] then forall d :: d in kept.seals ==> kept.seals[d].records == 0
    else Trail(Until(s.days, today - retention)) == [] && kept.days[Greatest(kept.days.Keys)] != []
  }

  ghost predicate Steady(s: State, retention: nat, step: Step) {
    match step
    case Write(c) => SteadyCall(s, retention, c)
    case Shutdown(_, today) => SteadyStart(Left(s, step), retention, today)
    case Crash(today) => SteadyStart(Left(s, step), retention, today)
  }

  // --- A new process ---------------------------------------------------------------------------

  lemma PreparedTrail(s: State, retention: nat, today: int)
    ensures Trail(s.days) == Trail(Until(s.days, today - retention)) + Trail(Prepared(s, retention, today).days)
  {
    hide Trail;
    TrailSplit(s.days, today - retention);
  }

  /** What a new process finds verifies exactly when no record expired before it, or all did. */
  lemma PrepareExactly(hash: Hash, s: State, retention: nat, today: int)
    requires Chained(hash, Trail(s.days))
    ensures Chained(hash, Trail(Prepared(s, retention, today).days)) <==>
      Trail(Until(s.days, today - retention)) == [] || Trail(From(s.days, today - retention)) == []
  {
    hide Trail, Chained;
    PreparedTrail(s, retention, today);
    var gone, t := Trail(Until(s.days, today - retention)), Trail(s.days);
    assert t[|gone|..] == Trail(Prepared(s, retention, today).days);
    SuffixChained(hash, t, |gone|);
  }

  /** Five days of retention, a record on each of days 0 and 1, and a process that starts on day 6. */
  lemma ExpiredStart(hash: Hash, first: Record, second: Record, seals: map<int, Seal>)
    requires Chained(hash, [first, second])
    ensures var days := map[0 := [first], 1 := [second]];
      Trail(days) == [first, second] && !Chained(hash, Trail(Prepared(State(days, seals, None), 5, 6).days))
  {
    hide Trail, Chained;
    var days := map[0 := [first], 1 := [second]];
    var early, late := Until(days, 1), From(days, 1);
    TrailSplit(days, 1);
    assert early.Keys == {0} && late.Keys == {1};
    SingleDay(early, 0);
    SingleDay(late, 1);
    assert [first] + [second] == [first, second];
    PrepareExactly(hash, State(days, seals, None), 5, 6);
  }

  /** A new process is sound exactly when its start is steady. */
  lemma StartExactly(hash: Hash, s: State, retention: nat, today: int)
    requires Chained(hash, Trail(s.days)) && SealsTrue(s)
    ensures Sound(hash, Prepared(s, retention, today)) <==> SteadyStart(s, retention, today)
    ensures Sound(hash, Prepared(s, retention, today)) ==>
      var t' := Trail(Prepared(s, retention, today).days); t' == Trail(s.days) || t' == []
  {
    hide Trail, Chained, Cursor, Greatest, From, Until;
    var kept := Prepared(s, retention, today);
    var t, t' := Trail(s.days), Trail(kept.days);
    PreparedTrail(s, retention, today);
    PrepareExactly(hash, s, retention, today);
    if Chained(hash, t') {
      RestartExactly(hash, kept.days, kept.seals);
    }
    if t' == [] {
      assert Chained(hash, t') by { NothingChained(hash); }
      assert SealsTrue(kept) <==> forall d :: d in kept.seals ==> kept.seals[d].records == 0 by {
        KeptSeals(s, retention, today);
      }
    } else if Trail(Until(s.days, today - retention)) == [] {
      assert t' == t;
      assert SealsTrue(kept) by { KeptSeals(s, retention, today); }
    }
  }

  lemma NothingChained(hash: Hash)
    ensures Chained(hash, [])
  {
  }

  lemma KeptSeals(s: State, retention: nat, today: int)
    requires SealsTrue(s)
    ensures var kept := Prepared(s, retention, today);
      && (Trail(kept.days) == Trail(s.days) ==> SealsTrue(kept))
      && (Trail(kept.days) == [] ==> (SealsTrue(kept) <==> forall d :: d in kept.seals ==> kept.seals[d].records == 0))
  {
    hide Trail, From;
    var kept := Prepared(s, retention, today);
    assert forall d :: d in kept.seals ==> d in s.seals && kept.seals[d] == s.seals[d];
  }

  lemma LeftSound(hash: Hash, s: State, step: Step)
    requires Sound(hash, s) && !step.Write?
    ensures Left(s, step).days == s.days && SealsTrue(Left(s, step))
  {
    hide Trail, Chained, Tail;
    if s.open.Some? {
      CursorOpen(s);
    }
  }

  // --- A call ----------------------------------------------------------------------------------

  /** What a trail says, record by record: when, and what. */
  function Said(trail: seq<Record>): (r: seq<(string, Content)>)
    ensures |r| == |trail| && forall i :: 0 <= i < |r| ==> r[i] == (trail[i].body.at, trail[i].body.content)
  {
    seq(|trail|, i requires 0 <= i < |trail| => (trail[i].body.at, trail[i].body.content))
  }

  lemma SealsGrow(t: seq<Record>, t': seq<Record>, seal: Seal)
    requires SealTrue(t, seal) && t <= t'
    ensures SealTrue(t', seal)
  {
  }

  /** Every seal after a call was there before it, or names where the sink then stood. */
  lemma SealsAfter(hash: Hash, s: State, retention: nat, c: Call, d: int)
    requires d in Recorded(hash, s, retention, c).0.seals
    ensures var seal := Recorded(hash, s, retention, c).0.seals[d];
      (d in s.seals && seal == s.seals[d]) || (s.open.Some? && (seal.records, seal.head) == Cursor(s))
  {
    hide From, Tail;
  }

  lemma SealsStayTrue(hash: Hash, s: State, retention: nat, c: Call)
    requires Sound(hash, s) && Trail(s.days) <= Trail(Recorded(hash, s, retention, c).0.days)
    ensures SealsTrue(Recorded(hash, s, retention, c).0)
  {
    hide Trail, Recorded, Chained, Cursor;
    var s' := Recorded(hash, s, retention, c).0;
    forall d | d in s'.seals ensures SealTrue(Trail(s'.days), s'.seals[d]) {
      SealsAfter(hash, s, retention, c, d);
      assert SealTrue(Trail(s.days), s'.seals[d]);
      SealsGrow(Trail(s.days), Trail(s'.days), s'.seals[d]);
    }
  }

  lemma CursorOpen(s: State)
    requires s.open.Some?
    ensures Cursor(s) == (s.open.value.number, s.open.value.previous)
  {
  }

  /** A call that gets as far as the file does what one whose file opens does. */
  lemma OpensAlike(hash: Hash, s: State, retention: nat, c: Call)
    requires Rolled(s, c.day) ==> c.opens
    ensures Recorded(hash, s, retention, c) == Recorded(hash, s, retention, c.(opens := true))
  {
    hide From, Cursor, NextRecord;
    var open := c.(opens := true);
    assert Opened(s, retention, c) == Opened(s, retention, open);
    assert NextRecord(hash, Cursor(s), c) == NextRecord(hash, Cursor(s), open) by { SameRecord(hash, Cursor(s), c); }
  }

  lemma SameRecord(hash: Hash, cursor: (nat, string), c: Call)
    ensures NextRecord(hash, cursor, c) == NextRecord(hash, cursor, c.(opens := true))
    ensures NextRecord(hash, cursor, c) == NextRecord(hash, cursor, c.(append := Written))
  {
  }

  lemma Unopened(hash: Hash, s: State, retention: nat, c: Call)
    requires Rolled(s, c.day) && !c.opens
    ensures var s' := Recorded(hash, s, retention, c).0; s'.days == s.days && Cursor(s') == Cursor(s)
  {
  }

  lemma WrittenExactly(hash: Hash, s: State, retention: nat, c: Call)
    requires InStep(hash, s) && c.opens && c.append.Written?
    ensures var s' := Recorded(hash, s, retention, c).0;
      && (InStep(hash, s') <==> NothingExpires(s, retention, c.day) && NothingLater(s.days, c.day))
      && (InStep(hash, s') ==>
            Trail(s.days) <= Trail(s'.days) && Said(Trail(s'.days)) == Said(Trail(s.days)) + [(c.at, c.content)])
  {
    hide Trail, Chained, NothingLater, NothingExpires, Opened, Cursor;
    RecordVerifiesExactly(hash, s, retention, c);
    var s' := Recorded(hash, s, retention, c).0;
    var r := NextRecord(hash, Cursor(s), c);
    assert Cursor(s') == (r.body.number, r.digest) by { CursorOpen(s'); }
    if InStep(hash, s') { SaidPush(Trail(s.days), r); }
  }

  lemma SaidPush(t: seq<Record>, r: Record)
    ensures Said(t + [r]) == Said(t) + [(r.body.at, r.body.content)]
  {
  }

  lemma NotWrittenExactly(hash: Hash, s: State, retention: nat, c: Call)
    requires InStep(hash, s) && c.opens && c.append.NotWritten?
    ensures var s' := Recorded(hash, s, retention, c).0;
      && (InStep(hash, s') <==> NothingExpires(s, retention, c.day))
      && (InStep(hash, s') ==> Trail(s'.days) == Trail(s.days))
  {
    hide Trail, Chained, Opened, Cursor, Until;
    OpenedTrail(s, retention, c);
    SameCursor(hash, s, retention, c);
    var s' := Recorded(hash, s, retention, c).0;
    assert s'.days == Opened(s, retention, c).days;
    assert |Trail(s'.days)| == |Trail(s.days)| ==> Trail(s'.days) == Trail(s.days);
  }

  lemma NotFlushedBreaks(hash: Hash, s: State, retention: nat, c: Call)
    requires InStep(hash, s) && c.opens && c.append.NotFlushed?
    ensures !InStep(hash, Recorded(hash, s, retention, c).0)
  {
    hide Trail, Chained, Cursor, NothingLater, NothingExpires, Recorded;
    SameDays(hash, s, retention, c);
    SameCursor(hash, s, retention, c);
    RecordVerifiesExactly(hash, s, retention, c.(append := Written));
  }

  /** A call leaves the sink sound exactly when it is steady. */
  lemma CallExactly(hash: Hash, s: State, retention: nat, c: Call)
    requires Sound(hash, s)
    ensures var s' := Recorded(hash, s, retention, c).0;
      && (Sound(hash, s') <==> SteadyCall(s, retention, c))
      && (Sound(hash, s') ==>
            Said(Trail(s'.days)) == Said(Trail(s.days)) + if Writes(s, Write(c)) then [(c.at, c.content)] else [])
  {
    hide Trail, Chained, Cursor, Recorded, NothingLater, NothingExpires;
    var s' := Recorded(hash, s, retention, c).0;
    if Rolled(s, c.day) && !c.opens {
      Unopened(hash, s, retention, c);
    } else {
      OpensAlike(hash, s, retention, c);
      var open := c.(opens := true);
      if c.append.Written? {
        WrittenExactly(hash, s, retention, open);
      } else if c.append.NotWritten? {
        NotWrittenExactly(hash, s, retention, open);
      } else {
        NotFlushedBreaks(hash, s, retention, open);
      }
    }
    if InStep(hash, s') {
      SealsStayTrue(hash, s, retention, c);
    }
  }

  // --- Every step and every run ----------------------------------------------------------------

  /** Whether a step put a record on the trail. */
  predicate Writes(s: State, step: Step) {
    step.Write? && (Rolled(s, step.call.day) ==> step.call.opens) && step.call.append.Written?
  }

  /** From a sound sink a step leads to a sound one exactly when it is steady; and then the trail says one
      thing more when a call was reported written, nothing when a process found nothing left, and
      otherwise what it did. */
  lemma StepExactly(hash: Hash, s: State, retention: nat, step: Step)
    requires Sound(hash, s)
    ensures Sound(hash, Next(hash, s, retention, step)) <==> Steady(s, retention, step)
    ensures Steady(s, retention, step) ==>
      Said(Trail(Next(hash, s, retention, step).days)) == Heard(hash, s, retention, step, Said(Trail(s.days)))
  {
    hide Trail, Recorded, SteadyCall, SteadyStart, Prepared, Closed, SealsTrue, Chained, Cursor;
    match step
    case Write(c) => CallExactly(hash, s, retention, c);
    case Shutdown(_, today) =>
      LeftSound(hash, s, step);
      StartExactly(hash, Left(s, step), retention, today);
    case Crash(today) =>
      LeftSound(hash, s, step);
      StartExactly(hash, Left(s, step), retention, today);
  }

  /** What the trail says after a step, when it said `said`: one more thing when a call was reported
      written, nothing when a new process found no record, and otherwise the same. */
  ghost function Heard(hash: Hash, s: State, retention: nat, step: Step, said: seq<(string, Content)>)
    : seq<(string, Content)>
  {
    if Writes(s, step) then said + [(step.call.at, step.call.content)]
    else if !step.Write? && Trail(Next(hash, s, retention, step).days) == [] then []
    else said
  }

  ghost function After(hash: Hash, s: State, retention: nat, steps: seq<Step>): State
    decreases |steps|
  {
    if steps == [] then s else After(hash, Next(hash, s, retention, steps[0]), retention, steps[1..])
  }

  ghost predicate AllSteady(hash: Hash, s: State, retention: nat, steps: seq<Step>)
    decreases |steps|
  {
    steps == []
    || (Steady(s, retention, steps[0]) && AllSteady(hash, Next(hash, s, retention, steps[0]), retention, steps[1..]))
  }

  /** The sink is sound after every step. */
  ghost predicate AllSound(hash: Hash, s: State, retention: nat, steps: seq<Step>)
    decreases |steps|
  {
    steps == []
    || (Sound(hash, Next(hash, s, retention, steps[0]))
        && AllSound(hash, Next(hash, s, retention, steps[0]), retention, steps[1..]))
  }

  /** What was reported written since the trail last began, call by call. */
  ghost function AllHeard(hash: Hash, s: State, retention: nat, steps: seq<Step>, said: seq<(string, Content)>)
    : seq<(string, Content)>
    decreases |steps|
  {
    if steps == [] then said
    else
      var now := Heard(hash, s, retention, steps[0], said);
      AllHeard(hash, Next(hash, s, retention, steps[0]), retention, steps[1..], now)
  }

  /** The runs through sound states are exactly the runs of steady steps. */
  lemma {:induction false} RunExactly(hash: Hash, s: State, retention: nat, steps: seq<Step>)
    requires Sound(hash, s)
    ensures AllSound(hash, s, retention, steps) <==> AllSteady(hash, s, retention, steps)
    ensures AllSteady(hash, s, retention, steps) ==>
      var s' := After(hash, s, retention, steps);
      Sound(hash, s') && Said(Trail(s'.days)) == AllHeard(hash, s, retention, steps, Said(Trail(s.days)))
    decreases |steps|
  {
    hide Sound, Steady, Next, Trail, Heard, Said;
    if steps != [] {
      StepExactly(hash, s, retention, steps[0]);
      if Steady(s, retention, steps[0]) {
        RunExactly(hash, Next(hash, s, retention, steps[0]), retention, steps[1..]);
      }
    }
  }

  // --- Seals -----------------------------------------------------------------------------------

  /** When a day closes, by the turn of the day or an orderly stop, its seal attests to every record
      of the trail so far. */
  lemma ClosingSeals(hash: Hash, s: State, retention: nat, c: Call)
    requires InStep(hash, s) && s.open.Some?
    ensures var day, whole := s.open.value.day, Seal(s.open.value.day, |Trail(s.days)|, Head(Trail(s.days)));
      && day in Closed(s, true).seals && Closed(s, true).seals[day] == whole
      && (Rolled(s, c.day) && c.seals && (day !in s.days || day >= c.day - retention) ==>
            var seals := Recorded(hash, s, retention, c).0.seals; day in seals && seals[day] == whole)
  {
    hide Trail, Chained, From, Tail;
    CursorOpen(s);
  }

  lemma {:induction false} PointsHold(t: seq<Record>, days: Days, seals: map<int, Seal>)
    requires forall d :: d in seals ==> SealTrue(t, seals[d])
    ensures SealsHold(t, Points(days, seals))
    decreases |days.Keys|
  {
    if days.Keys != {} {
      var d := Least(days.Keys);
      Smaller(days, d);
      PointsHold(t, days - {d}, seals);
      if d in seals { assert SealTrue(t, seals[d]); }
    }
  }

  const EMPTY := State(map[], map[], None)

  /** Every steady run on an empty directory, over any days, stops, crashes, new processes and failed
      calls, leaves a trail that verifies together with all its seals and holds exactly the records
      reported written since it last began. */
  lemma SteadyRunVerifies(hash: Hash, retention: nat, steps: seq<Step>)
    requires AllSteady(hash, EMPTY, retention, steps)
    ensures var s := After(hash, EMPTY, retention, steps);
      && Chained(hash, Trail(s.days)) && SealsHold(Trail(s.days), Points(s.days, s.seals))
      && Said(Trail(s.days)) == AllHeard(hash, EMPTY, retention, steps, [])
  {
    hide AllSteady, AllHeard, Points, After;
    assert EMPTY.days.Keys == {};
    EmptyDays(EMPTY.days);
    assert Sound(hash, EMPTY);
    RunExactly(hash, EMPTY, retention, steps);
    var s := After(hash, EMPTY, retention, steps);
    PointsHold(Trail(s.days), s.days, s.seals);
  }
}
