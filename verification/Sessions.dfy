/** Connect accounting: login records are turned into time used per line and per user. */
module Sessions {
  import opened LoginRecords

  /** What is known of one terminal line. An empty name means nobody is logged on. */
  datatype Line = Line(tline: string, tname: string, ttime: int, tlsess: int, tlon: int, tloff: int, ttotal: int)

  /** What is charged to one user: prime and other connect time, and sessions. */
  datatype User = User(con0: int, con1: int, sess: int)

  datatype State = State(lines: seq<Line>, datetime: int, lastime: int, ndates: int, users: map<int, User>, bad: bool)

  const START := State([], 0, 0, 0, map[], false)

  /** The tables outside the program: user numbers, and the split of an interval into prime and other time. */
  datatype Env = Env(uidOf: string -> int, split: (int, int) -> (int, int))

  /** The two parts of an interval add up to it. */
  ghost predicate Honest(env: Env) {
    forall start, n :: n >= 0 ==> env.split(start, n).0 + env.split(start, n).1 == n
  }

  // ----- what each record does ---------------------------------------------------------------

  /** Charges one session of `n` seconds to the user called `name`. */
  function Charge(env: Env, users: map<int, User>, name: string, start: int, n: int): map<int, User> {
    var uid := env.uidOf(name);
    var parts := env.split(start, n);
    if uid in users then
      users[uid := User(users[uid].con0 + parts.0, users[uid].con1 + parts.1, users[uid].sess + 1)]
    else users[uid := User(parts.0, parts.1, 1)]
  }

  /** A record of kind `kind` for line `i`; a login or a logoff ends the session that was on. */
  function Update(env: Env, st: State, i: nat, kind: Kind, name: string, time: int): (r: State)
    requires i < |st.lines|
    ensures |r.lines| == |st.lines|
  {
    var tp := st.lines[i];
    if tp.ttime > time then st.(lines := st.lines[i := tp.(ttime := time)], bad := true)
    else
      var ends := (kind.UserProcess? || kind.DeadProcess?) && tp.tname != "";
      var n := time - tp.ttime;
      var now := tp.(ttime := time, ttotal := if ends then tp.ttotal + n else tp.ttotal);
      var line := match kind
        case UserProcess =>
          now.(tname := name, tlsess := tp.tlsess + 1, tlon := if ends then tp.tlon else tp.tlon + 1)
        case DeadProcess => now.(tname := "", tloff := tp.tloff + 1)
        case _ => now;
      st.(lines := st.lines[i := line],
          users := if ends then Charge(env, st.users, tp.tname, tp.ttime, n) else st.users)
  }

  /** The place of a line, or the number of lines if it is new. */
  function Find(lines: seq<Line>, name: string): (i: nat)
    ensures i <= |lines|
    ensures i < |lines| ==> lines[i].tline == name
    ensures forall j :: 0 <= j < i ==> lines[j].tline != name
  {
    if lines == [] || lines[0].tline == name then 0 else 1 + Find(lines[1..], name)
  }

  /** The lines with `name` among them. */
  function Known(lines: seq<Line>, name: string): (r: seq<Line>)
    ensures Find(lines, name) < |r|
  {
    if Find(lines, name) < |lines| then lines else lines + [Line(name, "", 0, 0, 0, 0, 0)]
  }

  /** Logs off the lines from `i` on. */
  function LogOffFrom(env: Env, st: State, i: nat, time: int): State
    requires i <= |st.lines|
    decreases |st.lines| - i
  {
    if i == |st.lines| then st else LogOffFrom(env, Update(env, st, i, DeadProcess, "", time), i + 1, time)
  }

  function Shift(lines: seq<Line>, d: int): (r: seq<Line>)
    ensures |r| == |lines|
    ensures forall i :: 0 <= i < |lines| ==> r[i] == lines[i].(ttime := lines[i].ttime + d)
  {
    seq(|lines|, i requires 0 <= i < |lines| => lines[i].(ttime := lines[i].ttime + d))
  }

  /** One record. */
  function Step(env: Env, st: State, r: Rec): State {
    if r.line == "" then st
    else match r.kind
      case OldTime => st.(datetime := r.time)
      case NewTime =>
        if st.datetime == 0 then st
        else st.(lines := Shift(st.lines, r.time - st.datetime), datetime := 0, ndates := st.ndates + 1)
      case BootTime => LogOffFrom(env, st, 0, r.time).(lastime := r.time)
      case Accounting => st.(lastime := r.time)
      case RunLvl => st.(lastime := r.time)
      case EmptyRec => st
      case _ =>
        Update(env, st.(lines := Known(st.lines, r.line)), Find(st.lines, r.line), r.kind, r.name, r.time)
  }

  function Run(env: Env, st: State, recs: seq<Rec>): State
    decreases |recs|
  {
    if recs == [] then st else Run(env, Step(env, st, recs[0]), recs[1..])
  }

  // ----- the procedures ------------------------------------------------------------------------

  class Accountant {
    const env: Env
    var tbuf: seq<Line>
    var datetime: int
    var lastime: int
    var ndates: int
    var users: map<int, User>
    var bad: bool

    constructor (env: Env)
      ensures Now() == START && this.env == env
    {
      this.env := env;
      tbuf, datetime, lastime, ndates, users, bad := [], 0, 0, 0, map[], false;
    }

    function Now(): State
      reads this
    {
      State(tbuf, datetime, lastime, ndates, users, bad)
    }

    /** Adds a session to the totals of its user. */
    method Enter(name: string, start: int, n: int)
      modifies this`users
      ensures users == Charge(env, old(users), name, start, n)
    {
      var uid := env.uidOf(name);
      var con := env.split(start, n);
      if uid in users {
        users := users[uid := User(users[uid].con0 + con.0, users[uid].con1 + con.1, users[uid].sess + 1)];
      } else {
        users := users[uid := User(con.0, con.1, 1)];
      }
    }

    /** Looks up a line; a new line gets a slot of its own. */
    method Iline(name: string) returns (i: nat)
      modifies this`tbuf
      ensures i == Find(old(tbuf), name) && tbuf == Known(old(tbuf), name)
    {
      i := 0;
      while i < |tbuf|
        invariant 0 <= i <= |tbuf|
        invariant Find(tbuf, name) == i + Find(tbuf[i..], name)
      {
        if tbuf[i].tline == name {
          return;
        }
        assert tbuf[i..][1..] == tbuf[i + 1..];
        i := i + 1;
      }
      tbuf := tbuf + [Line(name, "", 0, 0, 0, 0, 0)];
    }

    /** A record for one line. */
    method UpdateLine(i: nat, kind: Kind, name: string, time: int)
      requires i < |tbuf|
      modifies this
      ensures Now() == Update(env, old(Now()), i, kind, name, time)
    {
      var tp := tbuf[i];
      var told := tp.ttime;
      if told > time {
        bad := true;
        tbuf := tbuf[i := tp.(ttime := time)];
        return;
      }
      tp := tp.(ttime := time);
      match kind {
        case UserProcess =>
          tp := tp.(tlsess := tp.tlsess + 1);
          if tp.tname != "" {
            Enter(tp.tname, told, time - told);
            tp := tp.(ttotal := tp.ttotal + (time - told));
          } else {
            tp := tp.(tlon := tp.tlon + 1);
          }
          tp := tp.(tname := name);
        case DeadProcess =>
          tp := tp.(tloff := tp.tloff + 1);
          if tp.tname != "" {
            Enter(tp.tname, told, time - told);
            tp := tp.(ttotal := tp.ttotal + (time - told), tname := "");
          }
        case _ =>
      }
      tbuf := tbuf[i := tp];
    }

    /** Logs off every line. */
    method Upall(time: int)
      modifies this
      ensures Now() == LogOffFrom(env, old(Now()), 0, time)
    {
      var i := 0;
      while i < |tbuf|
        invariant 0 <= i <= |tbuf|
        invariant LogOffFrom(env, Now(), i, time) == LogOffFrom(env, old(Now()), 0, time)
      {
        UpdateLine(i, DeadProcess, "", time);
        i := i + 1;
      }
    }

    /** Moves the start times of all lines. */
    method ShiftTimes(timediff: int)
      modifies this`tbuf
      ensures tbuf == Shift(old(tbuf), timediff)
    {
      var i := 0;
      while i < |tbuf|
        invariant 0 <= i <= |tbuf| == |old(tbuf)|
        invariant forall j :: 0 <= j < i ==> tbuf[j] == Shift(old(tbuf), timediff)[j]
        invariant forall j :: i <= j < |tbuf| ==> tbuf[j] == old(tbuf)[j]
      {
        tbuf := tbuf[i := tbuf[i].(ttime := tbuf[i].ttime + timediff)];
        i := i + 1;
      }
    }

    /** One record. */
    method Loop(wb: Rec)
      modifies this
      ensures Now() == Step(env, old(Now()), wb)
    {
      if wb.line == "" {
        return;
      }
      match wb.kind
      case OldTime =>
        datetime := wb.time;
      case NewTime =>
        if datetime == 0 {
          return;
        }
        ShiftTimes(wb.time - datetime);
        datetime := 0;
        ndates := ndates + 1;
      case BootTime =>
        Upall(wb.time);
        lastime := wb.time;
      case Accounting =>
        lastime := wb.time;
      case RunLvl =>
        lastime := wb.time;
      case EmptyRec =>
      case _ =>
        var i := Iline(wb.line);
        UpdateLine(i, wb.kind, wb.name, wb.time);
    }
  
    /** A whole file of records. */
    method Account(recs: seq<Rec>)
      modifies this
      ensures Now() == Run(env, old(Now()), recs)
    {
      var i := 0;
      assert recs[0..] == recs;
      while i < |recs|
        invariant 0 <= i <= |recs|
        invariant Run(env, Now(), recs[i..]) == Run(env, old(Now()), recs)
      {
        assert recs[i..][0] == recs[i] && recs[i..][1..] == recs[i + 1..];
        Loop(recs[i]);
        i := i + 1;
      }
    }
  }
}
