// The sink that writes the audit trail, and which of its runs leave a trail that verifies.

module AuditSink {
  import opened Basics
  import opened AuditTrail

  /** The file being appended to: its day, and where the chain continues from. */
  datatype Open = Open(day: int, number: nat, previous: string)

  datatype State = State(days: Days, seals: map<int, Seal>, open: Option<Open>)

  /** How an append ends: on disk and flushed, not on disk, or on disk with the flush reported failed. */
  datatype Append = Written | NotWritten | NotFlushed

  /** One call to record, with what the outside decides for it. */
  datatype Call = Call(day: int, at: string, content: Content, opens: bool, seals: bool, append: Append)

  datatype Failure = CannotOpen | CannotAppend

  // --- One record ------------------------------------------------------------------------------

  function Greatest(s: set<int>): (d: int)
    requires s != {}
    ensures d in s && forall e :: e in s ==> e <= d
  {
    var negated := set e | e in s :: -e;
    SomeOrNone(s);
    assert forall e :: e in s ==> -e in negated;
    -Least(negated)
  }

  /** Where the chain left off on disk: the last record of the latest day, when that day has one. */
  function Tail(days: Days): Option<(nat, string)> {
    if days.Keys == {} then None
    else
      var file := days[Greatest(days.Keys)];
      if file == [] then None else Some((file[|file| - 1].body.number, file[|file| - 1].digest))
  }

  predicate Rolled(s: State, day: int) { s.open.None? || s.open.value.day != day }

  /** What the next record will name as its number and predecessor. */
  function Cursor(s: State): (nat, string) {
    if s.open.Some? then (s.open.value.number, s.open.value.previous)
    else
      var tail := Tail(s.days);
      if tail.Some? then tail.value else (0, GENESIS)
  }

  /** The seal that attests to where the open file stands. */
  function SealOf(open: Open): Seal { Seal(open.day, open.number, open.previous) }

  /** Days past their retention go when a new day begins, each with its seal. */
  function Expired(s: State, retention: nat, day: int): State {
    s.(days := From(s.days, day - retention),
       seals := map d | d in s.seals && (d !in s.days || d >= day - retention) :: s.seals[d])
  }

  /** A new process on the directory another one left. */
  function Prepared(s: State, retention: nat, today: int): State { Expired(s.(open := None), retention, today) }

  /** The sink with the file for `day` open. */
  function Opened(s: State, retention: nat, c: Call): State {
    if !Rolled(s, c.day) then s
    else
      var sealed := if s.open.Some? && c.seals then s.seals[s.open.value.day := SealOf(s.open.value)] else s.seals;
      if !c.opens then s.(seals := sealed)
      else
        var days := if c.day in s.days then s.days else s.days[c.day := []];
        Expired(State(days, sealed, Some(Open(c.day, Cursor(s).0, Cursor(s).1))), retention, c.day)
  }

  function NextRecord(hash: Hash, cursor: (nat, string), c: Call): Record {
    var body := Body(cursor.0 + 1, c.at, cursor.1, c.content);
    Record(body, hash(body))
  }

  function Recorded(hash: Hash, s: State, retention: nat, c: Call): (State, Result<(), Failure>) {
    var o := Opened(s, retention, c);
    if Rolled(s, c.day) && !c.opens then (o, Err(CannotOpen))
    else
      var record := NextRecord(hash, Cursor(s), c);
      var file := if c.day in o.days then o.days[c.day] else [];
      var appended := o.(days := o.days[c.day := file + [record]]);
      if c.append.NotWritten? then (o, Err(CannotAppend))
      else if c.append.NotFlushed? then (appended, Err(CannotAppend))
      else (appended.(open := Some(Open(c.day, record.body.number, record.digest))), Ok(()))
  }

  function Closed(s: State, seals: bool): State {
    if s.open.None? then s
    else
      var o := s.open.value;
      s.(open := None, seals := if seals then s.seals[o.day := SealOf(o)] else s.seals)
  }

  /** What is left of a map by day once every day past the cut is gone, but for those still to be
      looked at and those that have no file. */
  function Unexpired<T>(m: map<int, T>, files: set<int>, entries: set<int>, cut: int): map<int, T> {
    map d | d in m && (d !in files || d in entries || d >= cut) :: m[d]
  }

  lemma AllListed(days: Days, seals: map<int, Seal>, cut: int)
    ensures Unexpired(days, days.Keys, days.Keys, cut) == days && Unexpired(seals, days.Keys, days.Keys, cut) == seals
  {
  }

  lemma OneListed<T>(m: map<int, T>, files: set<int>, entries: set<int>, cut: int, day: int)
    requires day in entries && entries <= files
    ensures Unexpired(m, files, entries - {day}, cut)
         == if day >= cut then Unexpired(m, files, entries, cut) else Unexpired(m, files, entries, cut) - {day}
    ensures entries <= m.Keys ==> entries - {day} <= Unexpired(m, files, entries - {day}, cut).Keys
  {
  }

  lemma NoneListed(days: Days, seals: map<int, Seal>, cut: int)
    ensures Unexpired(days, days.Keys, {}, cut) == From(days, cut)
    ensures Unexpired(seals, days.Keys, {}, cut) == map d | d in seals && (d !in days || d >= cut) :: seals[d]
  {
  }

  /** The last record of the call's day says what the call did and when, under its own digest; and from a
      sink in step it is numbered after the trail and names its head. */
  ghost predicate Leaves(hash: Hash, s: State, c: Call, s': State) {
    && c.day in s'.days && s'.days[c.day] != []
    && var last := s'.days[c.day][|s'.days[c.day]| - 1];
       && last.body.at == c.at && last.body.content == c.content && last.digest == hash(last.body)
       && (InStep(hash, s) ==> last.body.number == |Trail(s.days)| + 1 && last.body.prev == Head(Trail(s.days)))
  }

  lemma LastRecord(hash: Hash, s: State, retention: nat, c: Call)
    ensures Recorded(hash, s, retention, c).1.Ok? ==> Leaves(hash, s, c, Recorded(hash, s, retention, c).0)
  {
    hide Opened, Trail, Chained, Cursor;
  }

  class FileAuditSink {
    const retention: nat
    var days: Days
    var seals: map<int, Seal>
    var open: Option<Open>

    /** A process starting on whatever directory it finds. */
    constructor (retention: nat, days: Days, seals: map<int, Seal>)
      ensures this.retention == retention && Now() == State(days, seals, None)
    {
      this.retention, this.days, this.seals, this.open := retention, days, seals, None;
    }

    function Now(): State
      reads this
    {
      State(days, seals, open)
    }

    method RecordEvent(hash: Hash, c: Call) returns (r: Result<(), Failure>)
      requires open.Some? ==> open.value.day in days
      modifies this
      ensures (Now(), r) == Recorded(hash, old(Now()), retention, c)
      ensures r.Ok? ==> Leaves(hash, old(Now()), c, Now())
    {
      hide Tail, From, Leaves;
      LastRecord(hash, Now(), retention, c);
      var rolled := Rolled(Now(), c.day);
      if rolled && open.Some? {
        if c.seals { seals := seals[open.value.day := SealOf(open.value)]; }
      }
      if rolled {
        if !c.opens { return Err(CannotOpen); }
        var tail := if open.Some? then Some((open.value.number, open.value.previous)) else Tail(days);
        var (number, previous) := if tail.Some? then tail.value else (0, GENESIS);
        if c.day !in days { days := days[c.day := []]; }
        open := Some(Open(c.day, number, previous));
        var _ := Expire(c.day);
      }
      var current := open.value;
      var body := Body(current.number + 1, c.at, current.previous, c.content);
      var digest := hash(body);
      if c.append.NotWritten? { return Err(CannotAppend); }
      days := days[c.day := (if c.day in days then days[c.day] else []) + [Record(body, digest)]];
      if c.append.NotFlushed? { return Err(CannotAppend); }
      open := Some(Open(c.day, current.number + 1, digest));
      r := Ok(());
    }

    /** Before the first record of a process: what is past its retention goes. */
    method Prepare(today: int)
      requires open.None?
      modifies this`days, this`seals
      ensures Now() == Prepared(old(Now()), retention, today)
    {
      var _ := Expire(today);
    }

    /** Entry by entry, in whatever order the directory lists them. */
    method Expire(today: int) returns (removed: nat)
      modifies this`days, this`seals
      ensures Now() == Expired(old(Now()), retention, today)
      ensures removed == |old(days).Keys| - |days.Keys|
    {
      hide Unexpired;
      var oldestKept := today - retention;
      var entries := days.Keys;
      ghost var days0, seals0 := days, seals;
      removed := 0;
      AllListed(days, seals, oldestKept);
      while entries != {}
        invariant entries <= days.Keys && entries <= days0.Keys
        invariant days == Unexpired(days0, days0.Keys, entries, oldestKept)
        invariant seals == Unexpired(seals0, days0.Keys, entries, oldestKept)
        invariant removed == |days0.Keys| - |days.Keys|
        decreases |entries|
      {
        SomeOrNone(entries);
        var day :| day in entries;
        OneListed(days0, days0.Keys, entries, oldestKept, day);
        OneListed(seals0, days0.Keys, entries, oldestKept, day);
        entries := entries - {day};
        if day >= oldestKept { continue; }
        assert (days - {day}).Keys == days.Keys - {day};
        days := days - {day};
        seals := seals - {day};
        removed := removed + 1;
      }
      NoneListed(days0, seals0, oldestKept);
    }

    method Shutdown(sealed: bool)
      modifies this`open, this`seals
      ensures Now() == Closed(old(Now()), sealed)
    {
      if open.Some? {
        if sealed { seals := seals[open.value.day := SealOf(open.value)]; }
        open := None;
      }
    }
  }

  // --- When the next record verifies -----------------------------------------------------------

  function End(trail: seq<Record>): (nat, string) { (|trail|, Head(trail)) }

  lemma PushChained(hash: Hash, t: seq<Record>, cursor: (nat, string), c: Call)
    ensures Chained(hash, t + [NextRecord(hash, cursor, c)]) <==> Chained(hash, t) && cursor == End(t)
  {
    hide Linked, NextRecord;
    var r := NextRecord(hash, cursor, c);
    var u := t + [r];
    forall i | 0 <= i < |t| ensures Linked(hash, u, i) <==> Linked(hash, t, i) {
      LinkedBelow(hash, t, r, i);
    }
    assert Linked(hash, u, |t|) <==> cursor == End(t) by { LinkedLast(hash, t, cursor, c); }
    if Chained(hash, u) { assert Linked(hash, u, |t|); }
  }

  lemma LinkedBelow(hash: Hash, t: seq<Record>, r: Record, i: nat)
    requires i < |t|
    ensures Linked(hash, t + [r], i) <==> Linked(hash, t, i)
  {
    assert (t + [r])[i] == t[i] && Before(t + [r], i) == Before(t, i);
  }

  lemma LinkedLast(hash: Hash, t: seq<Record>, cursor: (nat, string), c: Call)
    ensures Linked(hash, t + [NextRecord(hash, cursor, c)], |t|) <==> cursor == End(t)
  {
    var u := t + [NextRecord(hash, cursor, c)];
    assert u[|t|] == NextRecord(hash, cursor, c) && Before(u, |t|) == Before(t, |t|);
  }

  /** Appending to the latest day appends to the trail. */
  lemma TrailPush(days: Days, day: int, r: Record)
    requires forall d :: d in days && d > day ==> days[d] == []
    ensures Trail(days[day := (if day in days then days[day] else []) + [r]]) == Trail(days) + [r]
  {
    hide Trail;
    var file := if day in days then days[day] else [];
    var after := days[day := file + [r]];
    TrailSplit(days, day);
    TrailSplit(after, day);
    assert Until(after, day) == Until(days, day);
    var late, late' := From(days, day), From(after, day);
    TrailSplit(late, day + 1);
    TrailSplit(late', day + 1);
    SingleDay(Until(late', day + 1), day);
    NothingAfter(From(late, day + 1));
    NothingAfter(From(late', day + 1));
    if day in days {
      SingleDay(Until(late, day + 1), day);
    } else {
      assert Until(late, day + 1).Keys == {};
      EmptyDays(Until(late, day + 1));
    }
  }

  lemma SingleDay(days: Days, day: int)
    requires days.Keys == {day}
    ensures Trail(days) == days[day]
  {
    NextDay(days, day);
    assert (days - {day}).Keys == {};
    EmptyDays(days - {day});
  }

  lemma {:induction false} NothingAfter(days: Days)
    requires forall d :: d in days ==> days[d] == []
    ensures Trail(days) == []
    decreases |days.Keys|
  {
    if days.Keys != {} {
      var d := Least(days.Keys);
      Smaller(days, d);
      NothingAfter(days - {d});
    }
  }

  /** A written record leaves a chain exactly when what is left of the trail is one, and the sink
      continues from its end. */
  lemma NextRecordVerifies(hash: Hash, s: State, retention: nat, c: Call)
    requires c.opens && c.append.Written?
    requires var o := Opened(s, retention, c); forall d :: d in o.days && d > c.day ==> o.days[d] == []
    ensures var o := Opened(s, retention, c);
      Chained(hash, Trail(Recorded(hash, s, retention, c).0.days)) <==>
      Chained(hash, Trail(o.days)) && Cursor(s) == End(Trail(o.days))
  {
    hide Trail, Opened, Chained, Cursor;
    var o := Opened(s, retention, c);
    TrailPush(o.days, c.day, NextRecord(hash, Cursor(s), c));
    PushChained(hash, Trail(o.days), Cursor(s), c);
  }

  // --- Exactly when a sink in step with its trail stays in step --------------------------------

  /** What is on disk is a chain, and the next record will continue it. */
  ghost predicate InStep(hash: Hash, s: State) {
    Chained(hash, Trail(s.days)) && Cursor(s) == End(Trail(s.days))
  }

  /** No record is on a day that a call's day would expire. */
  ghost predicate NothingExpires(s: State, retention: nat, day: int) {
    Rolled(s, day) ==> Trail(Until(s.days, day - retention)) == []
  }

  ghost predicate NothingLater(days: Days, day: int) {
    forall d :: d in days && d > day ==> days[d] == []
  }

  lemma EmptyDayAdded(days: Days, day: int)
    requires day !in days
    ensures Trail(days[day := []]) == Trail(days)
  {
    hide Trail;
    var more := days[day := []];
    TrailSplit(days, day);
    TrailSplit(more, day);
    assert Until(more, day) == Until(days, day);
    var late, late' := From(days, day), From(more, day);
    TrailSplit(late, day + 1);
    TrailSplit(late', day + 1);
    assert From(late', day + 1) == From(late, day + 1);
    SingleDay(Until(late', day + 1), day);
    assert Until(late, day + 1).Keys == {};
    EmptyDays(Until(late, day + 1));
  }

  /** Opening the day drops what expires from the front of the trail, and nothing else. */
  lemma OpenedTrail(s: State, retention: nat, c: Call)
    requires c.opens
    ensures var o := Opened(s, retention, c);
      Trail(s.days) == (if Rolled(s, c.day) then Trail(Until(s.days, c.day - retention)) else []) + Trail(o.days)
  {
    hide Trail;
    if Rolled(s, c.day) {
      var days := if c.day in s.days then s.days else s.days[c.day := []];
      if c.day !in s.days { EmptyDayAdded(s.days, c.day); }
      TrailSplit(days, c.day - retention);
      assert Until(days, c.day - retention) == Until(s.days, c.day - retention);
    }
  }

  /** The trail around a day that is not the latest. */
  lemma TrailAround(days: Days, day: int, r: Record)
    ensures var after := days[day := (if day in days then days[day] else []) + [r]];
      && Trail(days) == Trail(Until(days, day + 1)) + Trail(From(days, day + 1))
      && Trail(after) == Trail(Until(days, day + 1)) + [r] + Trail(From(days, day + 1))
  {
    hide Trail;
    var after := days[day := (if day in days then days[day] else []) + [r]];
    TrailSplit(days, day + 1);
    TrailSplit(after, day + 1);
    assert From(after, day + 1) == From(days, day + 1);
    var early := Until(days, day + 1);
    assert Until(after, day + 1) == early[day := (if day in early then early[day] else []) + [r]];
    TrailPush(early, day, r);
  }

  lemma {:induction false} LaterRecords(days: Days, day: int)
    ensures NothingLater(days, day) <==> Trail(From(days, day + 1)) == []
  {
    hide Trail;
    var late := From(days, day + 1);
    if NothingLater(days, day) {
      NothingAfter(late);
    } else {
      var d :| d in days && d > day && days[d] != [];
      TrailSplit(late, d);
      var rest := From(late, d);
      TrailSplit(rest, d + 1);
      SingleDay(Until(rest, d + 1), d);
    }
  }

  lemma SandwichBreaks(hash: Hash, a: seq<Record>, r: Record, b: seq<Record>)
    requires b != [] && r.body.number > |a| + 1
    ensures !Chained(hash, a + [r] + b)
  {
    var t := a + [r] + b;
    assert t[|a|] == r;
    assert !Linked(hash, t, |a|);
  }

  /** From a sink in step with its trail, the next written record leaves a trail that verifies exactly
      when no record expired with the turn of the day and none is on a later day: the verifier starts
      from the genesis digest and the number one, and the record continues from where it was. */
  lemma RecordVerifiesExactly(hash: Hash, s: State, retention: nat, c: Call)
    requires InStep(hash, s) && c.opens && c.append.Written?
    ensures Chained(hash, Trail(Recorded(hash, s, retention, c).0.days)) <==>
      NothingExpires(s, retention, c.day) && NothingLater(s.days, c.day)
    ensures NothingExpires(s, retention, c.day) && NothingLater(s.days, c.day) ==>
      Trail(Recorded(hash, s, retention, c).0.days) == Trail(s.days) + [NextRecord(hash, Cursor(s), c)]
  {
    hide Trail, Opened, Chained, Cursor, NothingLater, Recorded, NothingExpires, InStep;
    SameLater(s, retention, c);
    if NothingLater(s.days, c.day) {
      LatestDay(hash, s, retention, c);
    } else {
      EarlierDay(hash, s, retention, c);
    }
  }

  lemma RecordedDays(hash: Hash, s: State, retention: nat, c: Call)
    requires c.opens && c.append.Written?
    ensures var o, r := Opened(s, retention, c), NextRecord(hash, Cursor(s), c);
      Recorded(hash, s, retention, c).0.days == o.days[c.day := (if c.day in o.days then o.days[c.day] else []) + [r]]
  {
    hide Opened, Cursor;
  }

  lemma LatestDay(hash: Hash, s: State, retention: nat, c: Call)
    requires InStep(hash, s) && c.opens && c.append.Written? && NothingLater(Opened(s, retention, c).days, c.day)
    ensures Chained(hash, Trail(Recorded(hash, s, retention, c).0.days)) <==> NothingExpires(s, retention, c.day)
    ensures NothingExpires(s, retention, c.day) ==>
      Trail(Recorded(hash, s, retention, c).0.days) == Trail(s.days) + [NextRecord(hash, Cursor(s), c)]
  {
    hide Trail, Opened, Chained, Cursor, Until, Recorded, NextRecord;
    var o := Opened(s, retention, c);
    var t, t' := Trail(s.days), Trail(o.days);
    RecordedDays(hash, s, retention, c);
    OpenedTrail(s, retention, c);
    NextRecordVerifies(hash, s, retention, c);
    TrailPush(o.days, c.day, NextRecord(hash, Cursor(s), c));
    if NothingExpires(s, retention, c.day) {
      assert t == t';
    } else {
      assert |t'| < |t|;
    }
  }

  lemma EarlierDay(hash: Hash, s: State, retention: nat, c: Call)
    requires InStep(hash, s) && c.opens && c.append.Written? && !NothingLater(Opened(s, retention, c).days, c.day)
    ensures !Chained(hash, Trail(Recorded(hash, s, retention, c).0.days))
  {
    hide Trail, Opened, Chained, Cursor, NothingLater, Until, From, Recorded, Before;
    var o, r := Opened(s, retention, c), NextRecord(hash, Cursor(s), c);
    RecordedDays(hash, s, retention, c);
    OpenedTrail(s, retention, c);
    LaterRecords(o.days, c.day);
    TrailAround(o.days, c.day, r);
    var early, late := Trail(Until(o.days, c.day + 1)), Trail(From(o.days, c.day + 1));
    assert r.body.number == |Trail(s.days)| + 1;
    assert |Trail(s.days)| >= |Trail(o.days)| == |early| + |late|;
    SandwichBreaks(hash, early, r, late);
  }

  lemma LaterEmpty(days: Days, day: int)
    requires NothingLater(days, day)
    ensures forall d :: d in days && d > day ==> days[d] == []
  {
  }

  lemma SameLater(s: State, retention: nat, c: Call)
    requires c.opens
    ensures NothingLater(Opened(s, retention, c).days, c.day) <==> NothingLater(s.days, c.day)
  {
    hide Cursor;
    var o := Opened(s, retention, c);
    forall d | d > c.day
      ensures d in o.days <==> d in s.days
      ensures d in s.days ==> o.days[d] == s.days[d]
    {
    }
  }

  /** A process that starts on a directory is in step with it exactly when the latest day on disk holds
      a record, or no day does: a day file created and left empty makes the chain start again. */
  lemma RestartExactly(hash: Hash, days: Days, seals: map<int, Seal>)
    requires Chained(hash, Trail(days))
    ensures InStep(hash, State(days, seals, None)) <==>
      Trail(days) == [] || (days.Keys != {} && days[Greatest(days.Keys)] != [])
  {
    hide Trail;
    var t := Trail(days);
    if days.Keys == {} {
      EmptyDays(days);
    } else {
      var g := Greatest(days.Keys);
      TrailSplit(days, g);
      var last := From(days, g);
      assert last.Keys == {g};
      SingleDay(last, g);
      var file := days[g];
      if file != [] {
        assert t[|t| - 1] == file[|file| - 1];
        assert Linked(hash, t, |t| - 1);
      }
    }
  }

  /** A flush reported failed after the line reached the file leaves the sink out of step: the next
      record takes the same number again, and the trail stops verifying. */
  lemma FailedFlushBreaks(hash: Hash, s: State, retention: nat, c: Call, c': Call)
    requires InStep(hash, s) && c.opens && c.append.NotFlushed? && c'.opens && c'.append.Written? && c'.day == c.day
    requires NothingExpires(s, retention, c.day) && NothingLater(s.days, c.day)
    ensures !Chained(hash, Trail(Recorded(hash, Recorded(hash, s, retention, c).0, retention, c').0.days))
  {
    hide Trail, Chained, NothingLater, Tail, Expired;
    var written := c.(append := Written);
    RecordVerifiesExactly(hash, s, retention, written);
    var s1 := Recorded(hash, s, retention, c).0;
    assert s1.days == Recorded(hash, s, retention, written).0.days by { SameDays(hash, s, retention, c); }
    var o := Opened(s, retention, c);
    assert o.open.Some? && o.open.value.day == c.day by { OpenedOpen(s, retention, c); }
    assert !Rolled(s1, c'.day);
    assert Cursor(s1) == Cursor(s) by { SameCursor(hash, s, retention, c); }
    var t := Trail(s1.days);
    assert End(t).0 == |Trail(s.days)| + 1;
    assert NothingLater(s1.days, c.day) by {
      SameLater(s, retention, c);
      PushLater(o.days, c.day, NextRecord(hash, Cursor(s), c));
    }
    assert forall d :: d in s1.days && d > c.day ==> s1.days[d] == [] by { LaterEmpty(s1.days, c.day); }
    NextRecordVerifies(hash, s1, retention, c');
  }

  lemma SameDays(hash: Hash, s: State, retention: nat, c: Call)
    requires c.opens && c.append.NotFlushed?
    ensures Recorded(hash, s, retention, c).0.days == Recorded(hash, s, retention, c.(append := Written)).0.days
  {
    hide Cursor, From;
  }

  lemma OpenedOpen(s: State, retention: nat, c: Call)
    requires c.opens
    ensures var o := Opened(s, retention, c);
      o.open.Some? && o.open.value.day == c.day && (o.open.value.number, o.open.value.previous) == Cursor(s)
  {
    hide From;
  }

  lemma SameCursor(hash: Hash, s: State, retention: nat, c: Call)
    requires c.opens && !c.append.Written?
    ensures Cursor(Recorded(hash, s, retention, c).0) == Cursor(s)
  {
    hide Opened;
    OpenedOpen(s, retention, c);
  }

  lemma PushLater(days: Days, day: int, r: Record)
    ensures NothingLater(days[day := (if day in days then days[day] else []) + [r]], day) <==> NothingLater(days, day)
  {
    var after := days[day := (if day in days then days[day] else []) + [r]];
    forall d | d > day
      ensures d in after <==> d in days
      ensures d in days ==> after[d] == days[d]
    {
    }
  }
}
