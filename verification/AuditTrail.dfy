/** The names of audit log files, and the chain their headers and trailers form. */
module AuditTrail {
  import opened Options

  // ----- file names -------------------------------------------------------------------------------

  const DATE_SIZE := 14
  const NOT_TERMINATED := "not_terminated"

  predicate NoSlash(s: string) {
    forall i :: 0 <= i < |s| ==> s[i] != '/'
  }

  /** A time as fourteen digits. */
  type Date = s: string | |s| == DATE_SIZE && NoSlash(s) witness "00000000000000"

  type Host = s: string | NoSlash(s)

  /** The name of a log: its directory, the time it was opened, and the time it was closed or a place holder. */
  function LogName(dir: string, from: Date, to: string, host: Host): string {
    dir + "/" + from + "." + to + "." + host
  }

  function OpenName(dir: string, date: Date, host: Host): string {
    LogName(dir, date, NOT_TERMINATED, host)
  }

  /** The position of the last slash, or -1. */
  function LastSlash(s: string): (p: int)
    ensures -1 <= p < |s|
  {
    if s == [] then -1 else if s[|s| - 1] == '/' then |s| - 1 else LastSlash(s[..|s| - 1])
  }

  lemma {:induction false} LastSlashAt(a: string, b: string)
    requires NoSlash(b)
    ensures LastSlash(a + "/" + b) == |a|
  {
    var s := a + "/" + b;
    if b != [] {
      LastSlashAt(a, b[..|b| - 1]);
      assert s[..|s| - 1] == a + "/" + b[..|b| - 1];
      assert s[|s| - 1] == b[|b| - 1];
    }
  }

  /** Writes a date over the place holder of a log's name. */
  function Renamed(name: string, date: Date): string {
    var p := LastSlash(name) + 1 + DATE_SIZE + 1;
    if p + DATE_SIZE <= |name| then name[..p] + date + name[p + DATE_SIZE..] else name
  }

  /** The new name is the name with both times. */
  lemma {:induction false} RenamedIs(dir: string, from: Date, to: Date, host: Host)
    ensures Renamed(OpenName(dir, from, host), to) == LogName(dir, from, to, host)
  {
    var name := OpenName(dir, from, host);
    var tail := from + "." + NOT_TERMINATED + "." + host;
    assert NoSlash(tail) by {
      assert NoSlash(NOT_TERMINATED);
    }
    assert name == dir + "/" + tail;
    LastSlashAt(dir, tail);
    var head := dir + "/" + from + ".";
    assert name == head + NOT_TERMINATED + "." + host;
    assert name[..|head|] == head && name[|head| + DATE_SIZE..] == "." + host;
  }

  /** What stands where in a name. */
  lemma {:induction false} NameLayout(dir: string, from: Date, to: Date, host: Host)
    ensures var s, n := LogName(dir, from, to, host), |dir|;
            && |s| == n + 31 + |host| && s[..n] == dir && s[n] == '/' && s[n + 1..n + 15] == from && s[n + 15] == '.'
            && s[n + 16..n + 30] == to && s[n + 30] == '.' && s[n + 31..] == host
    ensures NOT_TERMINATED == "not_terminated" && |NOT_TERMINATED| == 14
  {}

  /** Two closed logs have the same name exactly when directory and both times agree. */
  lemma {:induction false} NamesDiffer(d1: string, a1: Date, b1: Date, d2: string, a2: Date, b2: Date, host: Host)
    ensures LogName(d1, a1, b1, host) == LogName(d2, a2, b2, host) <==> d1 == d2 && a1 == a2 && b1 == b2
  {
    var x, y := LogName(d1, a1, b1, host), LogName(d2, a2, b2, host);
    if x == y {
      var n := |d1|;
      assert d1 == x[..n] && d2 == y[..n];
      assert a1 == x[n + 1..n + 15] && a2 == y[n + 1..n + 15];
      assert b1 == x[n + 16..n + 30] && b2 == y[n + 16..n + 30];
    }
  }

  // ----- the chain --------------------------------------------------------------------------------

  datatype Ending = Running | Ended(trailer: string, final: string)

  /** A log file: where and when it was opened, the file its header names, and how it ended. */
  datatype Log = Log(dir: string, date: Date, header: string, ending: Ending)

  function NameOf(l: Log, host: Host): string {
    OpenName(l.dir, l.date, host)
  }

  /** The header of `b` names the file that `a` was renamed to, and the trailer of `a` names `b`. */
  predicate Linked(a: Log, b: Log, host: Host) {
    a.ending.Ended? && b.header == a.ending.final && a.ending.trailer == NameOf(b, host)
  }

  /** Neither names the other. */
  predicate Severed(a: Log, b: Log) {
    a.ending.Ended? && a.ending.trailer == "" && b.header == ""
  }

  /** A closed log bears both its times in its name. */
  ghost predicate ProperEnd(l: Log, host: Host) {
    l.ending.Ended? ==> exists to: Date :: l.ending.final == LogName(l.dir, l.date, to, host)
  }

  /** Each log is linked to the next, but for those in `breaks`. */
  ghost predicate Chain(trail: seq<Log>, breaks: set<nat>, host: Host) {
    && (trail != [] ==> trail[0].header == "")
    && (forall i :: 0 <= i < |trail| - 1 && i !in breaks ==> Linked(trail[i], trail[i + 1], host))
    && (forall i :: 0 <= i < |trail| - 1 && i in breaks ==> Severed(trail[i], trail[i + 1]))
    && (forall i :: 0 <= i < |trail| ==> ProperEnd(trail[i], host))
  }

  function Last(trail: seq<Log>): Log
    requires trail != []
  {
    trail[|trail| - 1]
  }

  /** The trail with its last log closed. */
  function Close(trail: seq<Log>, trailer: string, final: string): seq<Log>
    requires trail != []
  {
    trail[|trail| - 1 := Last(trail).(ending := Ended(trailer, final))]
  }

  /** A log opened while another runs continues the chain. */
  lemma {:induction false} ChainOn(trail: seq<Log>, breaks: set<nat>, host: Host, dir: string, date: Date)
    requires Chain(trail, breaks, host) && trail != [] && Last(trail).ending.Running?
    requires |trail| - 1 !in breaks
    ensures var was := Renamed(NameOf(Last(trail), host), date);
            var next := Log(dir, date, was, Running);
            Chain(Close(trail, NameOf(next, host), was) + [next], breaks, host)
  {
    var was := Renamed(NameOf(Last(trail), host), date);
    var next := Log(dir, date, was, Running);
    var r := Close(trail, NameOf(next, host), was) + [next];
    RenamedIs(Last(trail).dir, Last(trail).date, date, host);
    forall i | 0 <= i < |r| - 1 ensures if i in breaks then Severed(r[i], r[i + 1]) else Linked(r[i], r[i + 1], host) {
      if i < |trail| - 1 {
        assert if i in breaks then Severed(trail[i], trail[i + 1]) else Linked(trail[i], trail[i + 1], host);
      }
    }
    forall i | 0 <= i < |r| ensures ProperEnd(r[i], host) {
      if i < |trail| - 1 {
        assert ProperEnd(trail[i], host);
      }
    }
  }

  /** Closing the last log without a successor. */
  lemma {:induction false} ChainClosed(trail: seq<Log>, breaks: set<nat>, host: Host, date: Date)
    requires Chain(trail, breaks, host) && trail != [] && Last(trail).ending.Running?
    ensures Chain(Close(trail, "", Renamed(NameOf(Last(trail), host), date)), breaks, host)
  {
    var was := Renamed(NameOf(Last(trail), host), date);
    var r := Close(trail, "", was);
    RenamedIs(Last(trail).dir, Last(trail).date, date, host);
    forall i | 0 <= i < |r| - 1 ensures if i in breaks then Severed(r[i], r[i + 1]) else Linked(r[i], r[i + 1], host) {
      assert if i in breaks then Severed(trail[i], trail[i + 1]) else Linked(trail[i], trail[i + 1], host);
    }
    forall i | 0 <= i < |r| ensures ProperEnd(r[i], host) {
      assert ProperEnd(trail[i], host);
    }
  }

  /** A log opened while none runs starts afresh. */
  lemma {:induction false} ChainAnew(trail: seq<Log>, breaks: set<nat>, host: Host, dir: string, date: Date)
    requires Chain(trail, breaks, host)
    requires trail != [] ==> |trail| - 1 in breaks && Last(trail).ending.Ended? && Last(trail).ending.trailer == ""
    ensures Chain(trail + [Log(dir, date, "", Running)], breaks, host)
  {
    var r := trail + [Log(dir, date, "", Running)];
    forall i | 0 <= i < |r| - 1 ensures if i in breaks then Severed(r[i], r[i + 1]) else Linked(r[i], r[i + 1], host) {
      if i < |trail| - 1 {
        assert if i in breaks then Severed(trail[i], trail[i + 1]) else Linked(trail[i], trail[i + 1], host);
      }
    }
    forall i | 0 <= i < |r| ensures ProperEnd(r[i], host) {
      if i < |trail| {
        assert ProperEnd(trail[i], host);
      }
    }
  }

  /** The last log may be marked as one nothing follows on from. */
  lemma {:induction false} ChainBroken(trail: seq<Log>, breaks: set<nat>, host: Host)
    requires Chain(trail, breaks, host) && trail != []
    ensures Chain(trail, breaks + {|trail| - 1}, host)
  {}

  // ----- the books --------------------------------------------------------------------------------

  /** Records were written to a log, down to a number of free blocks. */
  datatype Served = Served(log: nat, floor: nat)

  /** The logs of a host, the name of the one that is open, the logs that were closed for want of space, and what was
      written where. */
  datatype Book = Book(host: Host, trail: seq<Log>, alogfile: Option<string>, breaks: set<nat>, served: seq<Served>,
                       exited: bool)

  /** Records go to the logs of a trail in turn. */
  predicate InOrder(served: seq<Served>, n: nat) {
    && (forall k, l :: 0 <= k < l < |served| ==> served[k].log <= served[l].log)
    && forall k :: 0 <= k < |served| ==> served[k].log < n
  }

  /** The log that is open is the last one and runs; with none open, the last was closed for want of space. */
  predicate OpenIsLast(b: Book) {
    match b.alogfile
    case Some(name) =>
      && b.trail != [] && Last(b.trail).ending.Running? && NameOf(Last(b.trail), b.host) == name
      && |b.trail| - 1 !in b.breaks
    case None => b.trail != [] ==>
      |b.trail| - 1 in b.breaks && Last(b.trail).ending.Ended? && Last(b.trail).ending.trailer == ""
  }

  ghost predicate Sound(b: Book) {
    && Chain(b.trail, b.breaks, b.host) && InOrder(b.served, |b.trail|)
    && (forall i :: i in b.breaks ==> i < |b.trail|)
    && (!b.exited ==> OpenIsLast(b))
  }

  function NoLogs(): Book {
    Book("", [], None, {}, [], false)
  }

  type Books = b: Book | Sound(b) ghost witness NoLogs()

  /** A service call writes to the open log. */
  function Write(b: Book, floor: nat): (r: Book)
    requires b.trail != []
  {
    b.(served := b.served + [Served(|b.trail| - 1, floor)])
  }

  /** A new log, and the end of the one that was open. */
  function Switch(b: Book, dir: string, date: Date): (r: Book)
    requires b.alogfile.Some? ==> b.trail != []
    ensures r.trail != []
  {
    var name := OpenName(dir, date, b.host);
    match b.alogfile
    case Some(was) =>
      var final := Renamed(was, date);
      b.(trail := Close(b.trail, name, final) + [Log(dir, date, final, Running)], alogfile := Some(name))
    case None => b.(trail := b.trail + [Log(dir, date, "", Running)], alogfile := Some(name))
  }

  /** The end of the log that is open, with nothing to follow. */
  function Finish(b: Book, date: Date): (r: Book)
    requires b.alogfile.Some? ==> b.trail != []
  {
    if b.alogfile.Some? then b.(trail := Close(b.trail, "", Renamed(b.alogfile.value, date))) else b
  }

  lemma {:induction false} WriteSound(b: Books, floor: nat)
    requires b.trail != []
    ensures Sound(Write(b, floor))
  {}

  lemma {:induction false} SwitchSound(b: Books, dir: string, date: Date)
    requires !b.exited
    ensures Sound(Switch(b, dir, date))
  {
    if b.alogfile.Some? {
      ChainOn(b.trail, b.breaks, b.host, dir, date);
    } else {
      ChainAnew(b.trail, b.breaks, b.host, dir, date);
    }
  }

  lemma {:induction false} FinishSound(b: Books, date: Date)
    requires !b.exited
    ensures Sound(Finish(b, date).(exited := true))
  {
    if b.alogfile.Some? {
      ChainClosed(b.trail, b.breaks, b.host, date);
    }
  }

  /** The end of the open log for want of space. */
  lemma {:induction false} BreakSound(b: Books, date: Date)
    requires !b.exited && b.alogfile.Some?
    ensures Sound(Finish(b, date).(alogfile := None, breaks := b.breaks + {|b.trail| - 1}))
  {
    ChainClosed(b.trail, b.breaks, b.host, date);
    ChainBroken(Close(b.trail, "", Renamed(b.alogfile.value, date)), b.breaks, b.host);
  }

  /** The time of closing that the name of a closed log bears. */
  function ClosedAt(l: Log): string {
    var p := |l.dir| + 2 + DATE_SIZE;
    if l.ending.Ended? && p + DATE_SIZE <= |l.ending.final| then l.ending.final[p..p + DATE_SIZE] else ""
  }

  lemma {:induction false} ClosedAtIs(l: Log, host: Host)
    requires l.ending.Ended? && ProperEnd(l, host)
    ensures |ClosedAt(l)| == DATE_SIZE && NoSlash(ClosedAt(l))
    ensures l.ending.final == LogName(l.dir, l.date, ClosedAt(l), host)
  {
    var to: Date :| l.ending.final == LogName(l.dir, l.date, to, host);
    assert ClosedAt(l) == to;
  }

  /** A header names a closed log exactly when that was opened in the same directory at the same time as the log
      before the header, and closed at the same time. */
  lemma {:induction false} HeaderNames(b: Books, i: nat, k: nat)
    requires i + 1 < |b.trail| && i !in b.breaks && k < |b.trail| && b.trail[k].ending.Ended?
    ensures var x, y := b.trail[i], b.trail[k];
            b.trail[i + 1].header == y.ending.final <==>
            x.dir == y.dir && x.date == y.date && ClosedAt(x) == ClosedAt(y)
  {
    var x, y := b.trail[i], b.trail[k];
    assert Linked(x, b.trail[i + 1], b.host) && ProperEnd(x, b.host) && ProperEnd(y, b.host);
    ClosedAtIs(x, b.host);
    ClosedAtIs(y, b.host);
    NamesDiffer(x.dir, x.date, ClosedAt(x), y.dir, y.date, ClosedAt(y), b.host);
  }

  /** When no two logs were opened in the same directory at the same time, a header names one log only: the one
      before. */
  lemma {:induction false} HeaderNamesOne(b: Books, i: nat, k: nat)
    requires i + 1 < |b.trail| && i !in b.breaks && k < |b.trail| && b.trail[k].ending.Ended?
    requires forall x, y :: 0 <= x < y < |b.trail| ==>
               b.trail[x].dir != b.trail[y].dir || b.trail[x].date != b.trail[y].date
    ensures b.trail[i + 1].header == b.trail[k].ending.final <==> k == i
  {
    HeaderNames(b, i, k);
  }
}
