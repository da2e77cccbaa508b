/** What a file of login records owes each user and each line, stated on the records themselves. */
module SessionBooks {
  import opened LoginRecords
  import opened Sessions

  // ----- the clock -------------------------------------------------------------------------------

  predicate SetsTime(r: Rec) {
    r.line != "" && (r.kind.OldTime? || r.kind.NewTime?)
  }

  /** The time of the last record before `k` that sets the clock, if that is one of an old time; 0 otherwise. */
  function Pending(recs: seq<Rec>, k: nat): int
    requires k <= |recs|
  {
    if k == 0 then 0
    else if SetsTime(recs[k - 1]) then if recs[k - 1].kind.OldTime? then recs[k - 1].time else 0
    else Pending(recs, k - 1)
  }

  /** By how much the record at `k` moves the clock: a new time, by its distance from the old time before it. */
  function Move(recs: seq<Rec>, k: nat): int
    requires k < |recs|
  {
    if recs[k].line != "" && recs[k].kind.NewTime? && Pending(recs, k) != 0 then recs[k].time - Pending(recs, k) else 0
  }

  /** By how much the records from `i` up to, and without, `k` move the clock. */
  function Moves(recs: seq<Rec>, i: nat, k: nat): int
    requires i <= k <= |recs|
  {
    if i == k then 0 else Moves(recs, i, k - 1) + Move(recs, k - 1)
  }

  // ----- the records of a line ---------------------------------------------------------------------

  /** The record at `k` is of a process on line `l`. */
  predicate OnLine(recs: seq<Rec>, l: string, k: nat)
    requires k < |recs|
  {
    l != "" && recs[k].line == l && IsProcess(recs[k].kind)
  }

  predicate IsBoot(r: Rec) {
    r.line != "" && r.kind.BootTime?
  }

  /** Some record before `k` is of a process on line `l`. */
  predicate Heard(recs: seq<Rec>, l: string, k: nat)
    requires k <= |recs|
  {
    exists i :: 0 <= i < k && OnLine(recs, l, i)
  }

  /** The record at `k` concerns line `l`: it is of a process there, or a boot after one was. */
  predicate Touches(recs: seq<Rec>, l: string, k: nat)
    requires k < |recs|
  {
    OnLine(recs, l, k) || (IsBoot(recs[k]) && Heard(recs, l, k))
  }

  /** The last record before `k` that concerns line `l`, or -1. */
  function LastTouch(recs: seq<Rec>, l: string, k: nat): (j: int)
    requires k <= |recs|
    ensures -1 <= j < k && (j >= 0 ==> Touches(recs, l, j)) && forall i :: j < i < k ==> !Touches(recs, l, i)
  {
    if k == 0 then -1 else if Touches(recs, l, k - 1) then k - 1 else LastTouch(recs, l, k - 1)
  }

  /** The time of the last record before `k` that concerns line `l`, on the clock at `k`; 0 if there is none. */
  function LastTime(recs: seq<Rec>, l: string, k: nat): int
    requires k <= |recs|
  {
    var j := LastTouch(recs, l, k);
    if j < 0 then 0 else recs[j].time + Moves(recs, j + 1, k)
  }

  /** The record at `k` concerns line `l` and is not earlier than the last one that does. */
  predicate Accepted(recs: seq<Rec>, l: string, k: nat)
    requires k < |recs|
  {
    Touches(recs, l, k) && LastTime(recs, l, k) <= recs[k].time
  }

  /** The record at `k` is an accepted login, logoff or boot: whoever was on line `l` is not on any more. */
  predicate Ends(recs: seq<Rec>, l: string, k: nat)
    requires k < |recs|
  {
    Accepted(recs, l, k) && (recs[k].kind.UserProcess? || recs[k].kind.DeadProcess? || recs[k].kind.BootTime?)
  }

  /** The record at `k` is an accepted login of somebody with a name. */
  predicate Login(recs: seq<Rec>, l: string, k: nat)
    requires k < |recs|
  {
    Accepted(recs, l, k) && recs[k].kind.UserProcess? && recs[k].name != ""
  }

  /** The session begun by the login at `b` lasts until the record at `k`. */
  predicate OnUntil(recs: seq<Rec>, l: string, b: nat, k: nat)
    requires b < k <= |recs|
  {
    Login(recs, l, b) && forall j :: b < j < k ==> !Ends(recs, l, j)
  }

  /** The login whose session is on before the record at `k`, or -1. */
  function LoginBefore(recs: seq<Rec>, l: string, k: nat): (b: int)
    requires k <= |recs|
    ensures -1 <= b < k
  {
    if k == 0 then -1
    else if Login(recs, l, k - 1) then k - 1
    else if Ends(recs, l, k - 1) then -1
    else LoginBefore(recs, l, k - 1)
  }

  /** It is the login with no login, logoff or boot accepted since. */
  lemma {:induction false} LoginBeforeIs(recs: seq<Rec>, l: string, k: nat, b: nat)
    requires b < k <= |recs|
    ensures LoginBefore(recs, l, k) == b <==> OnUntil(recs, l, b, k)
  {
    hide Accepted;
    if b < k - 1 {
      LoginBeforeIs(recs, l, k - 1, b);
    }
  }

  // ----- the sessions of a file ----------------------------------------------------------------------

  /** A session on a line, from the login that began it to the record that ended it. */
  datatype Session = Session(line: string, begin: nat, end: nat)

  /** The session on line `l` that the record at `k` ends. */
  function EndedOn(recs: seq<Rec>, l: string, k: nat): seq<Session>
    requires k < |recs|
  {
    if Ends(recs, l, k) && LoginBefore(recs, l, k) >= 0 then [Session(l, LoginBefore(recs, l, k), k)] else []
  }

  /** The lines heard of before `k`, in order of their first record. */
  function Lines(recs: seq<Rec>, k: nat): (ls: seq<string>)
    requires k <= |recs|
    ensures forall l :: l in ls <==> Heard(recs, l, k)
    ensures forall i, j :: 0 <= i < j < |ls| ==> ls[i] != ls[j]
  {
    if k == 0 then []
    else
      var l := recs[k - 1].line;
      if OnLine(recs, l, k - 1) && !Heard(recs, l, k - 1) then Lines(recs, k - 1) + [l] else Lines(recs, k - 1)
  }

  /** The sessions on the first `n` of some lines that the record at `k` ends. */
  function EndedOnAll(recs: seq<Rec>, ls: seq<string>, n: nat, k: nat): seq<Session>
    requires n <= |ls| && k < |recs|
  {
    if n == 0 then [] else EndedOnAll(recs, ls, n - 1, k) + EndedOn(recs, ls[n - 1], k)
  }

  /** The sessions that the record at `k` ends: one on its line, or at a boot one on each line. */
  function EndedAt(recs: seq<Rec>, k: nat): seq<Session>
    requires k < |recs|
  {
    if OnLine(recs, recs[k].line, k) then EndedOn(recs, recs[k].line, k)
    else if IsBoot(recs[k]) then EndedOnAll(recs, Lines(recs, k), |Lines(recs, k)|, k)
    else []
  }

  /** The sessions ended by the first `n` records. */
  function SessionsOf(recs: seq<Rec>, n: nat): seq<Session>
    requires n <= |recs|
  {
    if n == 0 then [] else SessionsOf(recs, n - 1) + EndedAt(recs, n - 1)
  }

  // ----- what they owe ---------------------------------------------------------------------------------

  /** The session counts from the last record before its end that concerns its line. */
  function StartOf(recs: seq<Rec>, x: Session): int
    requires x.end < |recs|
  {
    LastTime(recs, x.line, x.end)
  }

  function LengthOf(recs: seq<Rec>, x: Session): int
    requires x.end < |recs|
  {
    recs[x.end].time - StartOf(recs, x)
  }

  predicate Within(recs: seq<Rec>, xs: seq<Session>) {
    forall i :: 0 <= i < |xs| ==> xs[i].begin < xs[i].end < |recs|
  }

  /** What sessions owe the user with number `uid`: the prime parts, the other parts, and how many there are. */
  function Owed(env: Env, recs: seq<Rec>, xs: seq<Session>, uid: int): User
    requires Within(recs, xs)
  {
    if xs == [] then User(0, 0, 0)
    else
      var n, x := |xs| - 1, xs[|xs| - 1];
      var rest := Owed(env, recs, xs[..n], uid);
      if env.uidOf(recs[x.begin].name) != uid then rest
      else
        var parts := env.split(StartOf(recs, x), LengthOf(recs, x));
        User(rest.con0 + parts.0, rest.con1 + parts.1, rest.sess + 1)
  }

  /** Each user has what the sessions owe, and no others are there. */
  ghost predicate Settled(env: Env, recs: seq<Rec>, xs: seq<Session>, users: map<int, User>)
    requires Within(recs, xs)
  {
    forall uid :: if uid in users then users[uid] == Owed(env, recs, xs, uid) && users[uid].sess > 0
                  else Owed(env, recs, xs, uid) == User(0, 0, 0)
  }

  /** What to count on a line. */
  datatype What = Logins | FirstOn | Logoffs | Seconds

  /** What the record at `k` adds on line `l`: an accepted login; one while nobody is on; an accepted logoff or boot;
      the length of the session it ends. */
  function Adds(recs: seq<Rec>, l: string, k: nat, w: What): int
    requires k < |recs|
  {
    if !Accepted(recs, l, k) then 0
    else match w
      case Logins => if recs[k].kind.UserProcess? then 1 else 0
      case FirstOn => if recs[k].kind.UserProcess? && LoginBefore(recs, l, k) < 0 then 1 else 0
      case Logoffs => if recs[k].kind.DeadProcess? || recs[k].kind.BootTime? then 1 else 0
      case Seconds =>
        if Ends(recs, l, k) && LoginBefore(recs, l, k) >= 0 then recs[k].time - LastTime(recs, l, k) else 0
  }

  function Tally(recs: seq<Rec>, l: string, n: nat, w: What): int
    requires n <= |recs|
  {
    if n == 0 then 0 else Tally(recs, l, n - 1, w) + Adds(recs, l, n - 1, w)
  }

  /** What the first `n` records say of line `l`. */
  function LineOf(recs: seq<Rec>, l: string, n: nat): Line
    requires n <= |recs|
  {
    var b := LoginBefore(recs, l, n);
    Line(l, if b < 0 then "" else recs[b].name, LastTime(recs, l, n), Tally(recs, l, n, Logins),
         Tally(recs, l, n, FirstOn), Tally(recs, l, n, Logoffs), Tally(recs, l, n, Seconds))
  }

  // ----- the machine keeps these books -------------------------------------------------------------------

  function RunTo(env: Env, recs: seq<Rec>, n: nat): State
    requires n <= |recs|
  {
    if n == 0 then START else Step(env, RunTo(env, recs, n - 1), recs[n - 1])
  }

  lemma {:induction false} RunToIs(env: Env, recs: seq<Rec>, n: nat)
    requires n <= |recs|
    ensures Run(env, RunTo(env, recs, n), recs[n..]) == Run(env, START, recs)
  {
    if n == 0 {
      assert recs[0..] == recs;
    } else {
      RunToIs(env, recs, n - 1);
      assert recs[n - 1..][1..] == recs[n..];
    }
  }

  /** Some record before `n` is earlier than the last one for a line it concerns. */
  ghost predicate SomeRejected(recs: seq<Rec>, n: nat)
    requires n <= |recs|
  {
    exists k, l :: 0 <= k < n && Touches(recs, l, k) && !Accepted(recs, l, k)
  }

  /** How often the records before `n` change the clock. */
  function ClockChanges(recs: seq<Rec>, n: nat): nat
    requires n <= |recs|
  {
    if n == 0 then 0
    else
      var r := recs[n - 1];
      ClockChanges(recs, n - 1) + if r.line != "" && r.kind.NewTime? && Pending(recs, n - 1) != 0 then 1 else 0
  }

  /** The time of the last boot, change of run level or accounting record before `n`. */
  function LastMark(recs: seq<Rec>, n: nat): int
    requires n <= |recs|
  {
    if n == 0 then 0
    else
      var r := recs[n - 1];
      if r.line != "" && (r.kind.BootTime? || r.kind.RunLvl? || r.kind.Accounting?) then r.time
      else LastMark(recs, n - 1)
  }

  /** The state holds what the first `n` records say: of every line, of every user, of the clock. */
  ghost predicate Kept(env: Env, recs: seq<Rec>, n: nat, st: State) {
    && n <= |recs| && LinesKept(recs, Lines(recs, n), n, st.lines)
    && Within(recs, SessionsOf(recs, n)) && Settled(env, recs, SessionsOf(recs, n), st.users)
    && st.datetime == Pending(recs, n) && st.ndates == ClockChanges(recs, n) && st.lastime == LastMark(recs, n)
    && (st.bad <==> SomeRejected(recs, n))
  }

  predicate LinesKept(recs: seq<Rec>, ls: seq<string>, n: nat, lines: seq<Line>) {
    n <= |recs| && |lines| == |ls| && forall i :: 0 <= i < |lines| ==> lines[i] == LineOf(recs, ls[i], n)
  }

  lemma {:induction false} TouchedIsHeard(recs: seq<Rec>, l: string, k: nat)
    requires k <= |recs|
    ensures LastTouch(recs, l, k) >= 0 <==> Heard(recs, l, k)
    ensures k < |recs| ==> (Heard(recs, l, k + 1) <==> Heard(recs, l, k) || OnLine(recs, l, k))
  {
    if i :| 0 <= i < k && OnLine(recs, l, i) {
      assert Touches(recs, l, i);
    }
  }

  /** A record that does not concern a line leaves it alone, but for the clock. */
  lemma {:induction false} LineSame(recs: seq<Rec>, l: string, n: nat)
    requires n < |recs| && !Touches(recs, l, n)
    ensures var was := LineOf(recs, l, n);
            LineOf(recs, l, n + 1) == was.(ttime := if Heard(recs, l, n) then was.ttime + Move(recs, n) else 0)
  {
    TouchedIsHeard(recs, l, n);
    var j := LastTouch(recs, l, n);
    assert LastTouch(recs, l, n + 1) == j;
    assert forall w :: Adds(recs, l, n, w) == 0;
  }

  /** A record that concerns a line. */
  lemma {:induction false} LineTouched(env: Env, recs: seq<Rec>, l: string, n: nat, st: State, i: nat, kind: Kind,
                                       name: string)
    requires n < |recs| && Touches(recs, l, n) && i < |st.lines| && st.lines[i] == LineOf(recs, l, n)
    requires if recs[n].kind.BootTime? then kind.DeadProcess? else kind == recs[n].kind && name == recs[n].name
    ensures var r := Update(env, st, i, kind, name, recs[n].time);
            && r == st.(lines := st.lines[i := LineOf(recs, l, n + 1)], users := r.users, bad := r.bad)
            && (r.bad <==> st.bad || !Accepted(recs, l, n))
  {
    hide LoginBefore, LastTime, Heard;
    LineTimes(recs, l, n);
    LineNames(recs, l, n);
    assert forall w :: Tally(recs, l, n + 1, w) == Tally(recs, l, n, w) + Adds(recs, l, n, w);
  }

  lemma {:induction false} LineTimes(recs: seq<Rec>, l: string, n: nat)
    requires n < |recs| && Touches(recs, l, n)
    ensures LastTime(recs, l, n + 1) == recs[n].time
  {}

  lemma {:induction false} LineNames(recs: seq<Rec>, l: string, n: nat)
    requires n < |recs|
    ensures LoginBefore(recs, l, n + 1) ==
            if Login(recs, l, n) then n else if Ends(recs, l, n) then -1 else LoginBefore(recs, l, n)
    ensures LoginBefore(recs, l, n) >= 0 ==> recs[LoginBefore(recs, l, n)].name != ""
  {
    var b := LoginBefore(recs, l, n);
    if b >= 0 {
      LoginBeforeIs(recs, l, n, b);
    }
  }

  lemma {:induction false} OwedAppend(env: Env, recs: seq<Rec>, xs: seq<Session>, x: Session, uid: int)
    requires Within(recs, xs) && x.begin < x.end < |recs|
    ensures var rest, parts := Owed(env, recs, xs, uid), env.split(StartOf(recs, x), LengthOf(recs, x));
            Owed(env, recs, xs + [x], uid) ==
            if env.uidOf(recs[x.begin].name) != uid then rest
            else User(rest.con0 + parts.0, rest.con1 + parts.1, rest.sess + 1)
  {
    assert (xs + [x])[..|xs|] == xs;
  }

  lemma {:induction false} OwedCounts(env: Env, recs: seq<Rec>, xs: seq<Session>, uid: int)
    requires Within(recs, xs)
    ensures Owed(env, recs, xs, uid).sess >= 0
  {
    if xs != [] {
      OwedCounts(env, recs, xs[..|xs| - 1], uid);
    }
  }

  /** A session charged to the user whose login began it. */
  lemma {:induction false} ChargeSettles(env: Env, recs: seq<Rec>, xs: seq<Session>, x: Session, users: map<int, User>)
    requires Within(recs, xs) && x.begin < x.end < |recs| && Settled(env, recs, xs, users)
    ensures Settled(env, recs, xs + [x], Charge(env, users, recs[x.begin].name, StartOf(recs, x), LengthOf(recs, x)))
  {
    hide LastTime;
    forall uid ensures Owed(env, recs, xs, uid).sess >= 0 {
      OwedCounts(env, recs, xs, uid);
    }
    var now := Charge(env, users, recs[x.begin].name, StartOf(recs, x), LengthOf(recs, x));
    forall uid
      ensures if uid in now then now[uid] == Owed(env, recs, xs + [x], uid) && now[uid].sess > 0
              else Owed(env, recs, xs + [x], uid) == User(0, 0, 0)
    {
      OwedAppend(env, recs, xs, x, uid);
    }
  }

  /** What a record that concerns a line does to the users. */
  lemma {:induction false} UsersTouched(env: Env, recs: seq<Rec>, l: string, n: nat, st: State, i: nat, kind: Kind,
                                        name: string, xs: seq<Session>)
    requires n < |recs| && Touches(recs, l, n) && i < |st.lines| && st.lines[i] == LineOf(recs, l, n)
    requires if recs[n].kind.BootTime? then kind.DeadProcess? else kind == recs[n].kind && name == recs[n].name
    requires Within(recs, xs) && Settled(env, recs, xs, st.users)
    ensures Within(recs, xs + EndedOn(recs, l, n))
    ensures Settled(env, recs, xs + EndedOn(recs, l, n), Update(env, st, i, kind, name, recs[n].time).users)
  {
    hide LastTime, LoginBefore, Heard, Charge, Tally, Owed;
    LineNames(recs, l, n);
    var b := LoginBefore(recs, l, n);
    if Ends(recs, l, n) && b >= 0 {
      ChargeSettles(env, recs, xs, Session(l, b, n), st.users);
    } else {
      assert xs + [] == xs;
    }
  }

  /** A record that is neither of a process nor a boot. */
  lemma {:induction false} QuietKept(env: Env, recs: seq<Rec>, n: nat, st: State)
    requires n < |recs| && Kept(env, recs, n, st) && !IsBoot(recs[n]) && !OnLine(recs, recs[n].line, n)
    ensures Kept(env, recs, n + 1, Step(env, st, recs[n]))
  {
    hide Update, LogOffFrom, LineOf, Settled, Heard, SomeRejected, Accepted;
    var ls := Lines(recs, n);
    forall l ensures !Touches(recs, l, n) {}
    forall i | 0 <= i < |ls|
      ensures LineOf(recs, ls[i], n + 1) == st.lines[i].(ttime := st.lines[i].ttime + Move(recs, n))
    {
      LineSame(recs, ls[i], n);
      assert ls[i] in ls;
    }
    assert SessionsOf(recs, n + 1) == SessionsOf(recs, n);
    RejectedNext(recs, n);
  }

  lemma {:induction false} RejectedNext(recs: seq<Rec>, n: nat)
    requires n < |recs|
    ensures SomeRejected(recs, n + 1) <==>
            SomeRejected(recs, n) || exists l :: Touches(recs, l, n) && !Accepted(recs, l, n)
  {
    hide Accepted, Touches;
  }

  /** A record of a process, or a boot, leaves the clock alone. */
  lemma {:induction false} ClockNext(recs: seq<Rec>, n: nat)
    requires n < |recs| && (IsBoot(recs[n]) || OnLine(recs, recs[n].line, n))
    ensures Pending(recs, n + 1) == Pending(recs, n) && ClockChanges(recs, n + 1) == ClockChanges(recs, n)
    ensures Move(recs, n) == 0 && LastMark(recs, n + 1) == if IsBoot(recs[n]) then recs[n].time else LastMark(recs, n)
  {}

  /** The lines after a record of a process. */
  lemma {:induction false} ProcessLines(recs: seq<Rec>, n: nat, ls: seq<string>, lines: seq<Line>, i: nat)
    requires n < |recs| && OnLine(recs, recs[n].line, n) && LinesKept(recs, ls, n, lines)
    requires i < |ls| && ls[i] == recs[n].line && forall j :: 0 <= j < |ls| && j != i ==> ls[j] != ls[i]
    requires forall j :: 0 <= j < |ls| && j != i ==> Heard(recs, ls[j], n)
    ensures LinesKept(recs, ls, n + 1, lines[i := LineOf(recs, ls[i], n + 1)])
  {
    hide LineOf, Heard, Move;
    ClockNext(recs, n);
    forall j | 0 <= j < |ls| && j != i ensures LineOf(recs, ls[j], n + 1) == lines[j] {
      LineSame(recs, ls[j], n);
    }
  }

  /** A record of a process. */
  lemma {:induction false} ProcessKept(env: Env, recs: seq<Rec>, n: nat, st: State)
    requires n < |recs| && Kept(env, recs, n, st) && OnLine(recs, recs[n].line, n)
    ensures Kept(env, recs, n + 1, Step(env, st, recs[n]))
  {
    hide Update, LogOffFrom, Accepted, Settled, Within, EndedOn, Find, LinesKept, SomeRejected, Pending, ClockChanges,
      LastMark, Owed, LineOf;
    var r, ls := recs[n], Lines(recs, n);
    var wide, i := st.(lines := Known(st.lines, r.line)), Find(st.lines, r.line);
    var lw := if Heard(recs, r.line, n) then ls else ls + [r.line];
    KnownLines(recs, n, st.lines, r.line);
    KeptAt(recs, lw, n, wide.lines, i);
    LineTouched(env, recs, r.line, n, wide, i, r.kind, r.name);
    UsersTouched(env, recs, r.line, n, wide, i, r.kind, r.name, SessionsOf(recs, n));
    assert Lines(recs, n + 1) == lw;
    forall j | 0 <= j < |lw| && j != i ensures Heard(recs, lw[j], n) {
      assert lw[j] in ls;
    }
    ProcessLines(recs, n, lw, wide.lines, i);
    ClockNext(recs, n);
    RejectedNext(recs, n);
    assert forall l :: Touches(recs, l, n) <==> l == r.line;
  }

  lemma {:induction false} KeptAt(recs: seq<Rec>, ls: seq<string>, n: nat, lines: seq<Line>, i: nat)
    requires LinesKept(recs, ls, n, lines) && i < |ls|
    ensures |lines| == |ls| && lines[i] == LineOf(recs, ls[i], n)
  {}

  /** The slot of a line holds what is known of it, also when it is new. */
  lemma {:induction false} KnownLines(recs: seq<Rec>, n: nat, lines: seq<Line>, l: string)
    requires n <= |recs| && LinesKept(recs, Lines(recs, n), n, lines) && l != ""
    ensures var ls, i := Lines(recs, n), Find(lines, l);
            && LinesKept(recs, if Heard(recs, l, n) then ls else ls + [l], n, Known(lines, l))
            && (if Heard(recs, l, n) then i < |ls| && ls[i] == l else i == |ls|)
  {
    var ls, i := Lines(recs, n), Find(lines, l);
    forall j | 0 <= j < |lines| ensures lines[j].tline == ls[j] {}
    if Heard(recs, l, n) {
      assert l in ls;
      var j :| 0 <= j < |ls| && ls[j] == l;
      assert lines[j].tline == l;
    } else {
      assert forall j :: 0 <= j < |ls| ==> ls[j] in ls;
      Unheard(recs, l, n);
    }
  }

  lemma {:induction false} Unheard(recs: seq<Rec>, l: string, n: nat)
    requires n <= |recs| && !Heard(recs, l, n)
    ensures LineOf(recs, l, n) == Line(l, "", 0, 0, 0, 0, 0)
  {
    if n > 0 {
      assert !Heard(recs, l, n - 1) && !Touches(recs, l, n - 1);
      Unheard(recs, l, n - 1);
      LineSame(recs, l, n - 1);
    } else {
      assert LastTouch(recs, l, 0) == -1 && LoginBefore(recs, l, 0) == -1;
    }
  }

  /** The record at `n` is earlier than the last one for some of the first `i` lines. */
  predicate RejectedAmong(recs: seq<Rec>, ls: seq<string>, i: nat, n: nat)
    requires i <= |ls| && n < |recs|
  {
    exists j :: 0 <= j < i && !Accepted(recs, ls[j], n)
  }

  /** A boot, when the lines before `i` are logged off. */
  ghost predicate LoggedOff(env: Env, recs: seq<Rec>, n: nat, st: State, i: nat, q: State) {
    && n < |recs| && i <= |Lines(recs, n)| == |q.lines|
    && (forall j :: 0 <= j < |q.lines| ==> q.lines[j] == LineOf(recs, Lines(recs, n)[j], if j < i then n + 1 else n))
    && q == st.(lines := q.lines, users := q.users, bad := q.bad)
    && (q.bad <==> st.bad || RejectedAmong(recs, Lines(recs, n), i, n))
    && SettledSo(env, recs, SessionsOf(recs, n) + EndedOnAll(recs, Lines(recs, n), i, n), q.users)
  }

  ghost predicate SettledSo(env: Env, recs: seq<Rec>, xs: seq<Session>, users: map<int, User>) {
    Within(recs, xs) && Settled(env, recs, xs, users)
  }

  lemma {:induction false} LogOffStep(env: Env, recs: seq<Rec>, n: nat, st: State, i: nat, q: State)
    requires LoggedOff(env, recs, n, st, i, q) && IsBoot(recs[n]) && i < |q.lines|
    ensures LoggedOff(env, recs, n, st, i + 1, Update(env, q, i, DeadProcess, "", recs[n].time))
  {
    hide Update, LineOf, Accepted, Settled, Heard;
    var ls := Lines(recs, n);
    var l := ls[i];
    assert l in ls;
    LineTouched(env, recs, l, n, q, i, DeadProcess, "");
    var xs := SessionsOf(recs, n) + EndedOnAll(recs, ls, i, n);
    UsersTouched(env, recs, l, n, q, i, DeadProcess, "", xs);
    assert SessionsOf(recs, n) + EndedOnAll(recs, ls, i + 1, n) == xs + EndedOn(recs, l, n);
  }

  lemma {:induction false} LogOffKept(env: Env, recs: seq<Rec>, n: nat, st: State, i: nat, q: State)
    requires LoggedOff(env, recs, n, st, i, q) && IsBoot(recs[n])
    ensures LoggedOff(env, recs, n, st, |Lines(recs, n)|, LogOffFrom(env, q, i, recs[n].time))
    decreases |q.lines| - i
  {
    hide LineOf, Accepted, Settled, Heard, Update;
    if i < |q.lines| {
      LogOffStep(env, recs, n, st, i, q);
      LogOffKept(env, recs, n, st, i + 1, Update(env, q, i, DeadProcess, "", recs[n].time));
    }
  }

  lemma {:induction false} BootKept(env: Env, recs: seq<Rec>, n: nat, st: State)
    requires n < |recs| && Kept(env, recs, n, st) && IsBoot(recs[n])
    ensures Kept(env, recs, n + 1, Step(env, st, recs[n]))
  {
    hide Update, LogOffFrom, LineOf, Accepted, Settled, Within, Heard, EndedOn, SomeRejected, Pending, ClockChanges,
      LastMark;
    var ls := Lines(recs, n);
    assert SessionsOf(recs, n) + EndedOnAll(recs, ls, 0, n) == SessionsOf(recs, n);
    LogOffKept(env, recs, n, st, 0, st);
    assert Lines(recs, n + 1) == ls;
    ClockNext(recs, n);
    BootRejected(recs, n, ls);
  }

  lemma {:induction false} BootRejected(recs: seq<Rec>, n: nat, ls: seq<string>)
    requires n < |recs| && IsBoot(recs[n]) && ls == Lines(recs, n)
    ensures SomeRejected(recs, n + 1) <==> SomeRejected(recs, n) || RejectedAmong(recs, ls, |ls|, n)
  {
    hide LastTime, Heard, SomeRejected;
    RejectedNext(recs, n);
    forall l ensures Touches(recs, l, n) <==> l in ls {}
    if RejectedAmong(recs, ls, |ls|, n) {
      var j :| 0 <= j < |ls| && !Accepted(recs, ls[j], n);
      assert Touches(recs, ls[j], n);
    }
  }

  /** Every record keeps the books. */
  lemma {:induction false} StepKept(env: Env, recs: seq<Rec>, n: nat, st: State)
    requires n < |recs| && Kept(env, recs, n, st)
    ensures Kept(env, recs, n + 1, Step(env, st, recs[n]))
  {
    hide Step, Kept, OnLine, IsBoot;
    if OnLine(recs, recs[n].line, n) {
      ProcessKept(env, recs, n, st);
    } else if IsBoot(recs[n]) {
      BootKept(env, recs, n, st);
    } else {
      QuietKept(env, recs, n, st);
    }
  }

  /** At every point of every run. */
  lemma {:induction false} RunKept(env: Env, recs: seq<Rec>, n: nat)
    requires n <= |recs|
    ensures Kept(env, recs, n, RunTo(env, recs, n))
  {
    hide Step, Kept;
    if n == 0 {
      StartKept(env, recs);
    } else {
      RunKept(env, recs, n - 1);
      StepKept(env, recs, n - 1, RunTo(env, recs, n - 1));
    }
  }

  lemma {:induction false} StartKept(env: Env, recs: seq<Rec>)
    ensures Kept(env, recs, 0, START)
  {}

  /** After a whole file each user is charged the prime time, the other time and the number of the sessions that their
      logins began, each line shows its last record and its totals, and nobody else is charged. */
  lemma {:induction false} BooksExactly(env: Env, recs: seq<Rec>)
    ensures Kept(env, recs, |recs|, Run(env, START, recs))
  {
    hide Kept;
    RunKept(env, recs, |recs|);
    RunToIs(env, recs, |recs|);
    assert recs[|recs|..] == [];
  }

  // ----- which sessions there are --------------------------------------------------------------------------

  /** A session: a login with a name, and the next login, logoff or boot that is accepted on its line. */
  predicate IsSession(recs: seq<Rec>, x: Session) {
    x.begin < x.end < |recs| && OnUntil(recs, x.line, x.begin, x.end) && Ends(recs, x.line, x.end)
  }

  lemma {:induction false} EndedOnIs(recs: seq<Rec>, l: string, k: nat, x: Session)
    requires k < |recs|
    ensures x in EndedOn(recs, l, k) <==> IsSession(recs, x) && x.line == l && x.end == k
  {
    hide Ends, OnUntil, LoginBefore;
    var b := LoginBefore(recs, l, k);
    if b >= 0 {
      LoginBeforeIs(recs, l, k, b);
    }
    if x.begin < k {
      LoginBeforeIs(recs, l, k, x.begin);
    }
  }

  lemma {:induction false} EndedOnAllIs(recs: seq<Rec>, ls: seq<string>, n: nat, k: nat, x: Session)
    requires n <= |ls| && k < |recs|
    ensures x in EndedOnAll(recs, ls, n, k) <==> IsSession(recs, x) && x.line in ls[..n] && x.end == k
  {
    hide IsSession;
    if n > 0 {
      EndedOnAllIs(recs, ls, n - 1, k, x);
      EndedOnIs(recs, ls[n - 1], k, x);
      assert ls[..n] == ls[..n - 1] + [ls[n - 1]];
    }
  }

  lemma {:induction false} EndedAtIs(recs: seq<Rec>, k: nat, x: Session)
    requires k < |recs|
    ensures x in EndedAt(recs, k) <==> IsSession(recs, x) && x.end == k
  {
    hide OnUntil, LastTime, Heard;
    var ls := Lines(recs, k);
    EndedOnIs(recs, recs[k].line, k, x);
    EndedOnAllIs(recs, ls, |ls|, k, x);
    assert ls[..|ls|] == ls;
  }

  /** The sessions charged are exactly the sessions. */
  lemma {:induction false} SessionsAre(recs: seq<Rec>, n: nat, x: Session)
    requires n <= |recs|
    ensures x in SessionsOf(recs, n) <==> IsSession(recs, x) && x.end < n
  {
    hide IsSession, EndedAt;
    if n > 0 {
      SessionsAre(recs, n - 1, x);
      EndedAtIs(recs, n - 1, x);
    }
  }

  predicate Distinct(xs: seq<Session>) {
    forall i, j :: 0 <= i < j < |xs| ==> xs[i] != xs[j]
  }

  lemma {:induction false} DistinctOnAll(recs: seq<Rec>, ls: seq<string>, n: nat, k: nat)
    requires n <= |ls| && k < |recs| && forall i, j :: 0 <= i < j < |ls| ==> ls[i] != ls[j]
    ensures Distinct(EndedOnAll(recs, ls, n, k))
  {
    hide Ends, LoginBefore, IsSession;
    if n > 0 {
      DistinctOnAll(recs, ls, n - 1, k);
      var xs := EndedOnAll(recs, ls, n - 1, k);
      forall i | 0 <= i < |xs| ensures xs[i].line != ls[n - 1] {
        EndedOnAllIs(recs, ls, n - 1, k, xs[i]);
        assert xs[i] in xs;
      }
    }
  }

  lemma {:induction false} DistinctAt(recs: seq<Rec>, k: nat)
    requires k < |recs|
    ensures Distinct(EndedAt(recs, k))
  {
    hide EndedOnAll, Lines;
    DistinctOnAll(recs, Lines(recs, k), |Lines(recs, k)|, k);
  }

  predicate AllEnd(xs: seq<Session>, from: nat, to: nat) {
    forall i :: 0 <= i < |xs| ==> from <= xs[i].end < to
  }

  lemma {:induction false} SessionsEnd(recs: seq<Rec>, n: nat)
    requires n <= |recs|
    ensures AllEnd(SessionsOf(recs, n), 0, n)
  {
    hide IsSession, SessionsOf;
    var xs := SessionsOf(recs, n);
    forall i | 0 <= i < |xs| ensures xs[i].end < n {
      SessionsAre(recs, n, xs[i]);
      assert xs[i] in xs;
    }
  }

  lemma {:induction false} EndedAtEnd(recs: seq<Rec>, k: nat)
    requires k < |recs|
    ensures AllEnd(EndedAt(recs, k), k, k + 1)
  {
    hide IsSession, EndedAt;
    var xs := EndedAt(recs, k);
    forall i | 0 <= i < |xs| ensures xs[i].end == k {
      EndedAtIs(recs, k, xs[i]);
      assert xs[i] in xs;
    }
  }

  lemma {:induction false} DistinctJoined(xs: seq<Session>, ys: seq<Session>, n: nat)
    requires Distinct(xs) && Distinct(ys) && AllEnd(xs, 0, n) && AllEnd(ys, n, n + 1)
    ensures Distinct(xs + ys)
  {}

  /** And each is charged once. */
  lemma {:induction false} ChargedOnce(recs: seq<Rec>, n: nat)
    requires n <= |recs|
    ensures Distinct(SessionsOf(recs, n))
  {
    if n > 0 {
      hide EndedAt, Distinct, AllEnd;
      var k := n - 1;
      assert SessionsOf(recs, n) == SessionsOf(recs, k) + EndedAt(recs, k);
      hide SessionsOf;
      ChargedOnce(recs, k);
      DistinctAt(recs, k);
      SessionsEnd(recs, k);
      EndedAtEnd(recs, k);
      DistinctJoined(SessionsOf(recs, k), EndedAt(recs, k), k);
    }
  }

  // ----- how long they are -----------------------------------------------------------------------------------

  /** The time from the login to the end, on the clock at the end. */
  function WholeLength(recs: seq<Rec>, x: Session): int
    requires x.begin < x.end < |recs|
  {
    recs[x.end].time - recs[x.begin].time - Moves(recs, x.begin + 1, x.end)
  }

  /** A session is charged for its whole length exactly when the last record before its end that concerns the line is
      at the time of the login, once the clock changes are put right. */
  lemma {:induction false} WholeExactly(recs: seq<Rec>, x: Session)
    requires IsSession(recs, x)
    ensures LengthOf(recs, x) == WholeLength(recs, x) <==>
            var j := LastTouch(recs, x.line, x.end);
            && x.begin <= j
            && recs[j].time + Moves(recs, j + 1, x.end) == recs[x.begin].time + Moves(recs, x.begin + 1, x.end)
  {
    assert Touches(recs, x.line, x.begin);
  }

  /** A login, a record of the login program on the same line, and a logoff: the time before the second is lost. */
  lemma {:induction false} TimeLost(env: Env)
    requires env.split(15, 5) == (5, 0)
    ensures var recs := [Rec(UserProcess, "tty1", "adm", 10), Rec(LoginProcess, "tty1", "LOGIN", 15),
                         Rec(DeadProcess, "tty1", "adm", 20)];
            Run(env, START, recs).users == map[env.uidOf("adm") := User(5, 0, 1)]
  {
    var recs := [Rec(UserProcess, "tty1", "adm", 10), Rec(LoginProcess, "tty1", "LOGIN", 15),
                 Rec(DeadProcess, "tty1", "adm", 20)];
    var s1 := Step(env, START, recs[0]);
    assert s1.lines == [Line("tty1", "adm", 10, 1, 1, 0, 0)];
    var s2 := Step(env, s1, recs[1]);
    assert s2.lines == [Line("tty1", "adm", 15, 1, 1, 0, 0)] && s2.users == map[];
    var s3 := Step(env, s2, recs[2]);
    assert recs[1..][1..] == [recs[2]] && [recs[2]][1..] == [];
    assert Run(env, s2, [recs[2]]) == s3 && Run(env, s1, recs[1..]) == s3;
  }
}
