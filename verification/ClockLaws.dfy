/** A change of the clock does not change what is charged. */
module ClockLaws {
  import opened LoginRecords
  import opened Sessions
  import opened SessionLaws

  /** The same users, with the same connect time in all and the same sessions. */
  predicate SameUsers(a: map<int, User>, b: map<int, User>) {
    && a.Keys == b.Keys
    && forall u :: u in a ==> ConnectOf(a[u]) == ConnectOf(b[u]) && a[u].sess == b[u].sess
  }

  /** `b` is `a` on a clock that is `d` ahead. */
  predicate Ahead(a: State, b: State, d: int) {
    && b.lines == Shift(a.lines, d)
    && (if a.datetime == 0 then b.datetime == 0 else b.datetime == a.datetime + d != 0)
    && SameUsers(a.users, b.users)
  }

  lemma {:induction false} ChargeAhead(env: Env, a: map<int, User>, b: map<int, User>, name: string, start: int, n: int,
                                       d: int)
    requires Honest(env) && n >= 0 && SameUsers(a, b)
    ensures SameUsers(Charge(env, a, name, start, n), Charge(env, b, name, start + d, n))
  {
    var p, q := env.split(start, n), env.split(start + d, n);
    assert p.0 + p.1 == n == q.0 + q.1;
  }

  lemma {:induction false} UpdateAhead(env: Env, a: State, b: State, i: nat, kind: Kind, name: string, time: int,
                                       d: int)
    requires Honest(env) && Ahead(a, b, d) && i < |a.lines|
    ensures Ahead(Update(env, a, i, kind, name, time), Update(env, b, i, kind, name, time + d), d)
  {
    hide Find, Charge;
    var tp := a.lines[i];
    if tp.ttime <= time {
      ChargeAhead(env, a.users, b.users, tp.tname, tp.ttime, time - tp.ttime, d);
    }
  }

  /** A line that is new starts from the same slot on both clocks; its first record brings it in step. */
  lemma {:induction false} NewLineAhead(env: Env, a: State, b: State, l: Line, r: Rec, d: int)
    requires Ahead(a, b, d) && l.ttime == 0 && l.tname == "" && r.time > 0 && r.time + d > 0
    ensures Ahead(Update(env, a.(lines := a.lines + [l]), |a.lines|, r.kind, r.name, r.time),
                  Update(env, b.(lines := b.lines + [l]), |a.lines|, r.kind, r.name, r.time + d), d)
  {}

  lemma {:induction false} LogOffAhead(env: Env, a: State, b: State, i: nat, time: int, d: int)
    requires Honest(env) && Ahead(a, b, d) && i <= |a.lines|
    ensures Ahead(LogOffFrom(env, a, i, time), LogOffFrom(env, b, i, time + d), d)
    decreases |a.lines| - i
  {
    if i < |a.lines| {
      UpdateAhead(env, a, b, i, DeadProcess, "", time, d);
      LogOffAhead(env, Update(env, a, i, DeadProcess, "", time), Update(env, b, i, DeadProcess, "", time + d),
                  i + 1, time, d);
    }
  }

  lemma {:induction false} FindShifted(lines: seq<Line>, d: int, name: string)
    ensures Find(Shift(lines, d), name) == Find(lines, name)
  {
    if lines != [] && lines[0].tline != name {
      FindShifted(lines[1..], d, name);
      assert Shift(lines, d)[1..] == Shift(lines[1..], d);
    }
  }

  function Later(r: Rec, d: int): Rec {
    r.(time := r.time + d)
  }

  /** A time that is positive on both clocks. */
  predicate Positive(r: Rec, d: int) {
    r.time > 0 && r.time + d > 0
  }

  lemma {:induction false} ProcessAhead(env: Env, a: State, b: State, r: Rec, d: int)
    requires Honest(env) && Ahead(a, b, d) && Positive(r, d) && r.line != "" && IsProcess(r.kind)
    ensures Ahead(Step(env, a, r), Step(env, b, Later(r, d)), d)
  {
    hide Update;
    FindShifted(a.lines, d, r.line);
    var i := Find(a.lines, r.line);
    if i == |a.lines| {
      NewLineAhead(env, a, b, Line(r.line, "", 0, 0, 0, 0, 0), r, d);
    } else {
      UpdateAhead(env, a, b, i, r.kind, r.name, r.time, d);
    }
  }

  lemma {:induction false} SetClockAhead(env: Env, a: State, b: State, r: Rec, d: int)
    requires Ahead(a, b, d) && r.line != "" && r.kind.NewTime?
    ensures Ahead(Step(env, a, r), Step(env, b, Later(r, d)), d)
  {
    var n := r.time - a.datetime;
    assert Shift(Shift(a.lines, d), n) == Shift(Shift(a.lines, n), d);
  }

  lemma {:induction false} StepAhead(env: Env, a: State, b: State, r: Rec, d: int)
    requires Honest(env) && Ahead(a, b, d) && Positive(r, d)
    ensures Ahead(Step(env, a, r), Step(env, b, Later(r, d)), d)
  {
    hide Update, LogOffFrom, Find;
    if r.line != "" {
      if IsProcess(r.kind) {
        ProcessAhead(env, a, b, r, d);
      } else if r.kind.BootTime? {
        LogOffAhead(env, a, b, 0, r.time, d);
      } else if r.kind.NewTime? {
        SetClockAhead(env, a, b, r, d);
      }
    }
  }

  function AllLater(recs: seq<Rec>, d: int): (r: seq<Rec>)
    ensures |r| == |recs| && forall i :: 0 <= i < |recs| ==> r[i] == Later(recs[i], d)
  {
    seq(|recs|, i requires 0 <= i < |recs| => Later(recs[i], d))
  }

  lemma {:induction false} RunAhead(env: Env, a: State, b: State, recs: seq<Rec>, d: int)
    requires Honest(env) && Ahead(a, b, d) && forall i :: 0 <= i < |recs| ==> Positive(recs[i], d)
    ensures Ahead(Run(env, a, recs), Run(env, b, AllLater(recs, d)), d)
    decreases |recs|
  {
    if recs != [] {
      StepAhead(env, a, b, recs[0], d);
      assert AllLater(recs, d)[1..] == AllLater(recs[1..], d);
      RunAhead(env, Step(env, a, recs[0]), Step(env, b, Later(recs[0], d)), recs[1..], d);
    }
  }

  lemma {:induction false} RunConcat(env: Env, st: State, a: seq<Rec>, b: seq<Rec>)
    ensures Run(env, st, a + b) == Run(env, Run(env, st, a), b)
    decreases |a|
  {
    if a == [] {
      assert a + b == b;
    } else {
      RunConcat(env, Step(env, st, a[0]), a[1..], b);
      assert (a + b)[1..] == a[1..] + b;
    }
  }

  /** The two records a change of the clock from `t0` to `t1` leaves. */
  predicate SetsClock(change: seq<Rec>, t0: int, t1: int) {
    && |change| == 2 && change[0].line != "" && change[1].line != ""
    && change[0].kind.OldTime? && change[0].time == t0
    && change[1].kind.NewTime? && change[1].time == t1
  }

  /** A state with its clock set ahead. */
  function SetAhead(st: State, d: int): State {
    st.(lines := Shift(st.lines, d), ndates := st.ndates + 1)
  }

  lemma {:induction false} ClockChangeShifts(env: Env, st: State, change: seq<Rec>, t0: int, t1: int)
    requires st.datetime == 0 && t0 != 0 && SetsClock(change, t0, t1)
    ensures Run(env, st, change) == SetAhead(st, t1 - t0)
  {
    assert change[1..] == [change[1]] && change[1..][1..] == [];
    var old0 := Step(env, st, change[0]);
    assert old0 == st.(datetime := t0);
    assert Run(env, old0, [change[1]]) == Step(env, old0, change[1]);
  }

  /** Records on the new clock after something that put the clock ahead. */
  lemma {:induction false} ChangedRun(env: Env, st: State, before: seq<Rec>, change: seq<Rec>, after: seq<Rec>, d: int)
    requires Honest(env) && Run(env, st, before).datetime == 0
    requires Run(env, Run(env, st, before), change) == SetAhead(Run(env, st, before), d)
    requires forall i :: 0 <= i < |after| ==> Positive(after[i], d)
    ensures Ahead(Run(env, st, before + after), Run(env, st, before + (change + AllLater(after, d))), d)
  {
    var mid := Run(env, st, before);
    RunConcat(env, st, before, after);
    RunConcat(env, st, before, change + AllLater(after, d));
    RunConcat(env, mid, change, AllLater(after, d));
    RunAhead(env, mid, SetAhead(mid, d), after, d);
  }

  /** Setting the clock from `t0` to `t1` between two records, and all later records on the new clock, leaves every
      line's total and counts, and every user's connect time and sessions, as they would have been. */
  lemma {:induction false} ClockChangeIsInvisible(env: Env, st: State, before: seq<Rec>, change: seq<Rec>,
                                                  after: seq<Rec>, t0: int, t1: int)
    requires Honest(env) && t0 != 0 && Run(env, st, before).datetime == 0
    requires SetsClock(change, t0, t1) && forall i :: 0 <= i < |after| ==> Positive(after[i], t1 - t0)
    ensures Ahead(Run(env, st, before + after),
                  Run(env, st, before + (change + AllLater(after, t1 - t0))), t1 - t0)
  {
    ClockChangeShifts(env, Run(env, st, before), change, t0, t1);
    ChangedRun(env, st, before, change, after, t1 - t0);
  }
}
