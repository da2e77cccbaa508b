/** What holds of connect accounting over any sequence of records. */
module SessionLaws {
  import opened LoginRecords
  import opened Sums
  import opened Sessions

  // ----- sums over lines and users ---------------------------------------------------------------

  function SumOver(lines: seq<Line>, f: Line -> int): int {
    if lines == [] then 0 else f(lines[0]) + SumOver(lines[1..], f)
  }

  lemma {:induction false} SumOverConcat(a: seq<Line>, b: seq<Line>, f: Line -> int)
    ensures SumOver(a + b, f) == SumOver(a, f) + SumOver(b, f)
  {
    if a == [] {
      assert a + b == b;
    } else {
      SumOverConcat(a[1..], b, f);
      assert (a + b)[1..] == a[1..] + b;
    }
  }

  lemma {:induction false} SumOverUpdate(lines: seq<Line>, i: nat, l: Line, f: Line -> int)
    requires i < |lines|
    ensures SumOver(lines[i := l], f) == SumOver(lines, f) - f(lines[i]) + f(l)
  {
    assert lines == lines[..i] + ([lines[i]] + lines[i + 1..]);
    assert lines[i := l] == lines[..i] + ([l] + lines[i + 1..]);
    SumOverConcat(lines[..i], [lines[i]] + lines[i + 1..], f);
    SumOverConcat(lines[..i], [l] + lines[i + 1..], f);
  }

  function TotalOf(l: Line): int {
    l.ttotal
  }

  function SessOf(l: Line): int {
    l.tlsess
  }

  /** 1 for a line with somebody logged on. */
  function OnOf(l: Line): int {
    if l.tname != "" then 1 else 0
  }

  function ConnectOf(u: User): int {
    u.con0 + u.con1
  }

  function ChargedOf(u: User): int {
    u.sess
  }

  function Valued(users: map<int, User>, g: User -> int): map<int, int> {
    map u | u in users :: g(users[u])
  }

  ghost function SumUsers(users: map<int, User>, g: User -> int): int {
    MapSum(Valued(users, g))
  }

  lemma {:induction false} SumUsersUpdate(users: map<int, User>, uid: int, u: User, g: User -> int)
    ensures SumUsers(users[uid := u], g) == SumUsers(users, g) + g(u) - if uid in users then g(users[uid]) else 0
  {
    assert Valued(users[uid := u], g) == Valued(users, g)[uid := g(u)];
    MapSumUpdate(Valued(users, g), uid, g(u));
  }

  /** A charge adds its length and one session to the users' sums. */
  lemma {:induction false} ChargeSums(env: Env, users: map<int, User>, name: string, start: int, n: int)
    requires Honest(env) && n >= 0
    ensures SumUsers(Charge(env, users, name, start, n), ConnectOf) == SumUsers(users, ConnectOf) + n
    ensures SumUsers(Charge(env, users, name, start, n), ChargedOf) == SumUsers(users, ChargedOf) + 1
  {
    var uid := env.uidOf(name);
    var u := Charge(env, users, name, start, n)[uid];
    SumUsersUpdate(users, uid, u, ConnectOf);
    SumUsersUpdate(users, uid, u, ChargedOf);
  }

  // ----- conservation ------------------------------------------------------------------------------

  /** Time charged to users is time used on lines; sessions begun are charged, still on, or had no name. */
  ghost predicate Conserved(st: State, blank: int) {
    && SumUsers(st.users, ConnectOf) == SumOver(st.lines, TotalOf)
    && SumUsers(st.users, ChargedOf) + SumOver(st.lines, OnOf) + blank == SumOver(st.lines, SessOf)
  }

  /** 1 for a login without a name that is not rejected for its time. */
  function Blank(lines: seq<Line>, i: nat, kind: Kind, name: string, time: int): int
    requires i < |lines|
  {
    if kind.UserProcess? && name == "" && lines[i].ttime <= time then 1 else 0
  }

  /** Replacing a line, with the users charged for the difference. */
  lemma {:induction false} ReplaceConserves(st: State, i: nat, now: Line, users: map<int, User>, blank: int, more: int)
    requires i < |st.lines| && Conserved(st, blank)
    requires SumUsers(users, ConnectOf) - SumUsers(st.users, ConnectOf) == TotalOf(now) - TotalOf(st.lines[i])
    requires SumUsers(users, ChargedOf) - SumUsers(st.users, ChargedOf) + OnOf(now) - OnOf(st.lines[i]) + more
          == SessOf(now) - SessOf(st.lines[i])
    ensures Conserved(st.(lines := st.lines[i := now], users := users), blank + more)
  {
    SumOverUpdate(st.lines, i, now, TotalOf);
    SumOverUpdate(st.lines, i, now, OnOf);
    SumOverUpdate(st.lines, i, now, SessOf);
  }

  lemma {:induction false} UpdateConserves(env: Env, st: State, i: nat, kind: Kind, name: string, time: int, blank: int)
    requires Honest(env) && i < |st.lines| && Conserved(st, blank)
    ensures Conserved(Update(env, st, i, kind, name, time), blank + Blank(st.lines, i, kind, name, time))
  {
    var tp, r := st.lines[i], Update(env, st, i, kind, name, time);
    if tp.ttime <= time && (kind.UserProcess? || kind.DeadProcess?) && tp.tname != "" {
      ChargeSums(env, st.users, tp.tname, tp.ttime, time - tp.ttime);
    }
    ReplaceConserves(st, i, r.lines[i], r.users, blank, Blank(st.lines, i, kind, name, time));
  }

  lemma {:induction false} LogOffConserves(env: Env, st: State, i: nat, time: int, blank: int)
    requires Honest(env) && i <= |st.lines| && Conserved(st, blank)
    ensures Conserved(LogOffFrom(env, st, i, time), blank)
    decreases |st.lines| - i
  {
    if i < |st.lines| {
      UpdateConserves(env, st, i, DeadProcess, "", time, blank);
      LogOffConserves(env, Update(env, st, i, DeadProcess, "", time), i + 1, time, blank);
    }
  }

  lemma {:induction false} ShiftKeepsSum(lines: seq<Line>, d: int, f: Line -> int)
    requires forall l: Line, t :: f(l.(ttime := t)) == f(l)
    ensures SumOver(Shift(lines, d), f) == SumOver(lines, f)
  {
    if lines != [] {
      ShiftKeepsSum(lines[1..], d, f);
      assert Shift(lines, d)[1..] == Shift(lines[1..], d);
    }
  }

  lemma {:induction false} ShiftConserves(st: State, d: int, blank: int)
    requires Conserved(st, blank)
    ensures Conserved(st.(lines := Shift(st.lines, d)), blank)
  {
    ShiftKeepsSum(st.lines, d, TotalOf);
    ShiftKeepsSum(st.lines, d, OnOf);
    ShiftKeepsSum(st.lines, d, SessOf);
  }

  /** The nameless logins of a record. */
  function BlankStep(st: State, r: Rec): int {
    if r.line != "" && r.kind.UserProcess? then
      Blank(Known(st.lines, r.line), Find(st.lines, r.line), r.kind, r.name, r.time) else 0
  }

  function BlankRun(env: Env, st: State, recs: seq<Rec>): int
    decreases |recs|
  {
    if recs == [] then 0 else BlankStep(st, recs[0]) + BlankRun(env, Step(env, st, recs[0]), recs[1..])
  }

  lemma {:induction false} StepConserves(env: Env, st: State, r: Rec, blank: int)
    requires Honest(env) && Conserved(st, blank)
    ensures Conserved(Step(env, st, r), blank + BlankStep(st, r))
  {
    hide Update, LogOffFrom, Find, Charge;
    if r.line != "" {
      if r.kind.NewTime? && st.datetime != 0 {
        ShiftConserves(st, r.time - st.datetime, blank);
      } else if r.kind.BootTime? {
        LogOffConserves(env, st, 0, r.time, blank);
      } else if r.kind.UserProcess? || r.kind.LoginProcess? || r.kind.InitProcess? || r.kind.DeadProcess? {
        ProcessConserves(env, st, r, blank);
      }
    }
  }

  lemma {:induction false} ProcessConserves(env: Env, st: State, r: Rec, blank: int)
    requires Honest(env) && Conserved(st, blank) && r.line != ""
    requires r.kind.UserProcess? || r.kind.LoginProcess? || r.kind.InitProcess? || r.kind.DeadProcess?
    ensures Conserved(Step(env, st, r), blank + BlankStep(st, r))
  {
    hide Update;
    var wide := st.(lines := Known(st.lines, r.line));
    KnownConserves(st, r.line, blank);
    UpdateConserves(env, wide, Find(st.lines, r.line), r.kind, r.name, r.time, blank);
  }

  lemma {:induction false} KnownConserves(st: State, name: string, blank: int)
    requires Conserved(st, blank)
    ensures Conserved(st.(lines := Known(st.lines, name)), blank)
  {
    var l := Line(name, "", 0, 0, 0, 0, 0);
    SumOverConcat(st.lines, [l], TotalOf);
    SumOverConcat(st.lines, [l], OnOf);
    SumOverConcat(st.lines, [l], SessOf);
  }

  /** At every point of every run: connect time is conserved, and sessions are accounted for. */
  lemma {:induction false} RunConserves(env: Env, st: State, recs: seq<Rec>, blank: int)
    requires Honest(env) && Conserved(st, blank)
    ensures Conserved(Run(env, st, recs), blank + BlankRun(env, st, recs))
    decreases |recs|
  {
    if recs != [] {
      StepConserves(env, st, recs[0], blank);
      RunConserves(env, Step(env, st, recs[0]), recs[1..], blank + BlankStep(st, recs[0]));
    }
  }

  /** From the start: charged sessions plus lines logged on are the sessions begun, exactly when no login that was
      accepted lacked a name. */
  lemma {:induction false} SessionsAccountedExactly(env: Env, recs: seq<Rec>)
    requires Honest(env)
    ensures var st := Run(env, START, recs);
            && SumUsers(st.users, ConnectOf) == SumOver(st.lines, TotalOf)
            && (SumUsers(st.users, ChargedOf) + SumOver(st.lines, OnOf) == SumOver(st.lines, SessOf)
                <==> BlankRun(env, START, recs) == 0)
  {
    assert Valued(START.users, ConnectOf) == map[] && Valued(START.users, ChargedOf) == map[];
    RunConserves(env, START, recs, 0);
  }

  /** One login without a name is a session begun that is neither on nor ever charged. */
  lemma {:induction false} NamelessLogin(env: Env)
    requires Honest(env)
    ensures var st := Run(env, START, [Rec(UserProcess, "console", "", 1)]);
            SumUsers(st.users, ChargedOf) + SumOver(st.lines, OnOf) != SumOver(st.lines, SessOf)
  {
    var recs := [Rec(UserProcess, "console", "", 1)];
    assert recs[1..] == [];
    assert BlankStep(START, recs[0]) == 1;
    assert BlankRun(env, START, recs) == 1 + BlankRun(env, Step(env, START, recs[0]), []);
    SessionsAccountedExactly(env, recs);
  }

  lemma {:induction false} NamedLogins(env: Env, st: State, recs: seq<Rec>)
    requires forall i :: 0 <= i < |recs| && recs[i].kind.UserProcess? ==> recs[i].name != ""
    ensures BlankRun(env, st, recs) == 0
    decreases |recs|
  {
    if recs != [] {
      NamedLogins(env, Step(env, st, recs[0]), recs[1..]);
    }
  }

  // ----- a line's total against the clock ------------------------------------------------------------

  /** No record is earlier than one before it, and the clock is never changed. */
  predicate Ordered(recs: seq<Rec>, clock: int) {
    recs == [] ||
    (clock <= recs[0].time && !recs[0].kind.OldTime? && !recs[0].kind.NewTime? && Ordered(recs[1..], recs[0].time))
  }

  /** When each line was first heard of: the time of the record that gave it its slot. */
  function Firsts(env: Env, st: State, firsts: seq<int>, recs: seq<Rec>): seq<int>
    decreases |recs|
  {
    if recs == [] then firsts
    else
      var now := Step(env, st, recs[0]);
      Firsts(env, now, if |now.lines| > |firsts| then firsts + [recs[0].time] else firsts, recs[1..])
  }

  function LastTime(recs: seq<Rec>, clock: int): int {
    if recs == [] then clock else LastTime(recs[1..], recs[0].time)
  }

  /** The time used on each line fits between its first record and its last. */
  predicate AllFit(lines: seq<Line>, clock: int, firsts: seq<int>) {
    && |lines| == |firsts|
    && forall i :: 0 <= i < |lines| ==>
         firsts[i] <= lines[i].ttime <= clock && 0 <= lines[i].ttotal <= lines[i].ttime - firsts[i]
  }

  lemma {:induction false} LogOffFits(env: Env, st: State, i: nat, time: int, firsts: seq<int>)
    requires i <= |st.lines| && AllFit(st.lines, time, firsts)
    ensures AllFit(LogOffFrom(env, st, i, time).lines, time, firsts)
    decreases |st.lines| - i
  {
    if i < |st.lines| {
      LogOffFits(env, Update(env, st, i, DeadProcess, "", time), i + 1, time, firsts);
    }
  }

  /** A record for a line that is known. */
  lemma {:induction false} UpdateFits(env: Env, st: State, i: nat, r: Rec, firsts: seq<int>)
    requires i < |st.lines| && AllFit(st.lines, r.time, firsts)
    ensures AllFit(Update(env, st, i, r.kind, r.name, r.time).lines, r.time, firsts)
  {}

  /** The first record for a line. */
  lemma {:induction false} NewLineFits(env: Env, st: State, l: Line, r: Rec, firsts: seq<int>)
    requires AllFit(st.lines, r.time, firsts) && l.tname == "" && l.ttotal == 0
    ensures var wide := st.(lines := st.lines + [l]);
            AllFit(Update(env, wide, |st.lines|, r.kind, r.name, r.time).lines, r.time, firsts + [r.time])
  {}

  /** One record in order. */
  lemma {:induction false} StepFits(env: Env, st: State, r: Rec, clock: int, firsts: seq<int>)
    requires AllFit(st.lines, clock, firsts) && clock <= r.time && !r.kind.OldTime? && !r.kind.NewTime?
    ensures var now := Step(env, st, r);
            AllFit(now.lines, r.time, if |now.lines| > |firsts| then firsts + [r.time] else firsts)
  {
    assert AllFit(st.lines, r.time, firsts);
    if r.kind.BootTime? {
      LogOffFits(env, st, 0, r.time, firsts);
    } else if r.line != "" && IsProcess(r.kind) {
      var i := Find(st.lines, r.line);
      var wide := st.(lines := Known(st.lines, r.line));
      if i == |st.lines| {
        NewLineFits(env, st, Line(r.line, "", 0, 0, 0, 0, 0), r, firsts);
      } else {
        UpdateFits(env, wide, i, r, firsts);
      }
    }
  }

  /** With records in order and no clock change, a line's total never exceeds the time since its first record. */
  lemma {:induction false} TotalsFit(env: Env, st: State, recs: seq<Rec>, clock: int, firsts: seq<int>)
    requires AllFit(st.lines, clock, firsts) && Ordered(recs, clock)
    ensures AllFit(Run(env, st, recs).lines, LastTime(recs, clock), Firsts(env, st, firsts, recs))
    decreases |recs|
  {
    if recs != [] {
      StepFits(env, st, recs[0], clock, firsts);
      var now := Step(env, st, recs[0]);
      TotalsFit(env, now, recs[1..], recs[0].time, if |now.lines| > |firsts| then firsts + [recs[0].time] else firsts);
    }
  }
}
