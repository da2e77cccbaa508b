/** The rounds of the audit daemon as functions of what happens in them, and what holds of every run. */
module AuditRounds {
  import opened Options
  import opened Ring
  import opened AuditTrail
  import opened AuditScan
  import opened AuditSearch

  datatype Signals = Signals(alrm: bool, term: bool, hup: bool, usr1: bool)

  const NO_SIGNALS := Signals(false, false, false, false)

  predicate Any(c: Signals) {
    c.alrm || c.term || c.hup || c.usr1
  }

  function Both(c: Signals, d: Signals): Signals {
    Signals(c.alrm || d.alrm, c.term || d.term, c.hup || d.hup, c.usr1 || d.usr1)
  }

  /** Why the audit service call returned. */
  datatype Error = Busy | Off | TooBig | Interrupted | Unusable | Other

  /** What happens while the service call runs: the signals before and during it, its error, the space then found, the
      time. */
  datatype Service = Service(before: Signals, during: Signals, error: Error, stat: Stat, date: Date)

  /** What happens while the daemon sleeps. */
  datatype Nap = Nap(date: Date, signals: Signals)

  /** What happens in a round, and the list of directories to read if it is read anew. */
  datatype Round = Round(world: World, service: Service, nap: Nap, list: seq<Dir>, min: nat)

  /** What the daemon goes by; `reset` asks for the list of directories to be read anew. */
  datatype State = State(dirs: seq<Dir>, at: nat, minfree: nat, hung: nat, force: bool, reset: bool, caught: Signals,
                         books: Book)

  /** A state in which the daemon has a directory, and no log open while it waits for space. */
  ghost predicate Live(st: State) {
    && st.at < |st.dirs| && Sound(st.books)
    && (!st.books.exited && st.hung > 0 ==> st.books.alogfile.None?)
  }

  // ----- the service call -----------------------------------------------------------------------------

  /** What an error of the service call, with the signals that came in, does to the logs: the run goes on, or it ends
      with the open log left as it is or closed with nothing to follow. */
  function BooksAfter(b: Book, error: Error, c: Signals, hung: nat, date: Date): (r: Book)
    requires b.trail != []
  {
    match error
    case Busy => b.(exited := true)
    case Off => b.(exited := true)
    case Unusable => b
    case Other => b
    case _ =>
      if c.alrm then Finish(b, date).(exited := true)
      else if c.term then Finish(if hung == 0 then Write(b, 0) else b, date).(exited := true)
      else b
  }

  /** The current directory after the service call returned. */
  function DirAfter(d: Dir, error: Error, stat: Stat, minfree: nat): Dir {
    match error
    case Unusable => d.(space := StayFull)
    case Other => Probed(d, stat, minfree)
    case _ => d
  }

  /** The signals still waiting. */
  function CaughtAfter(error: Error, c: Signals, hung: nat): Signals {
    if !error.TooBig? && !error.Interrupted? then c
    else if c.alrm then c
    else if c.term then if hung == 0 then NO_SIGNALS else c
    else c.(hup := false, usr1 := false)
  }

  /** The list of directories is to be read anew. */
  predicate Reloads(error: Error, c: Signals) {
    (error.TooBig? || error.Interrupted?) && !c.alrm && !c.term && c.hup
  }

  /** A new log is to be used even if the directory stays. */
  predicate Switches(error: Error, c: Signals) {
    error.TooBig? || (error.Interrupted? && !c.alrm && !c.term && c.usr1)
  }

  /** A signal that waits keeps the service from being called. */
  function ErrorOf(c: Signals, sv: Service): Error {
    if Any(c) then Interrupted else sv.error
  }

  function SignalsOf(c: Signals, sv: Service): Signals {
    if Any(c) then c else Both(c, sv.during)
  }

  /** After acting on an error of the service call. */
  function Reacted(st: State, error: Error, sv: Service): (r: State)
    requires st.at < |st.dirs| && st.books.trail != []
    ensures |r.dirs| == |st.dirs| && r.at == st.at
  {
    st.(dirs := st.dirs[st.at := DirAfter(st.dirs[st.at], error, sv.stat, st.minfree)],
        books := BooksAfter(st.books, error, st.caught, st.hung, sv.date),
        caught := CaughtAfter(error, st.caught, st.hung),
        force := st.force || Switches(error, st.caught),
        reset := Reloads(error, st.caught))
  }

  /** After writing records to the open log, down to `low` free blocks. */
  function Audited(st: State, low: nat, sv: Service): (r: State)
    requires st.at < |st.dirs| && st.books.trail != []
    ensures |r.dirs| == |st.dirs| && r.at == st.at
  {
    var c := Both(st.caught, sv.before);
    var b := if Any(c) then st.books else Write(st.books, low);
    var r := Reacted(st.(force := false, caught := SignalsOf(c, sv), books := b), ErrorOf(c, sv), sv);
    if r.books.exited then r else r.(hung := 0)
  }

  // ----- no space ---------------------------------------------------------------------------------------

  function BrokenBooks(b: Book, date: Date): (r: Book)
    requires b.alogfile.Some? ==> b.trail != []
    ensures r.exited == b.exited
  {
    if b.alogfile.None? then b
    else Finish(b, date).(alogfile := None, breaks := b.breaks + {|b.trail| - 1})
  }

  /** After sleeping. */
  function Slept(st: State, nap: Nap): State {
    var c := Both(st.caught, nap.signals);
    if c.term then st.(caught := c, books := st.books.(exited := true))
    else st.(caught := NO_SIGNALS, reset := c.hup)
  }

  /** After closing the open log, if there is one, and sleeping. */
  function Starved(st: State, nap: Nap): State
    requires st.books.alogfile.Some? ==> st.books.trail != []
  {
    Slept(st.(hung := st.hung + 1, books := if st.hung == 0 then BrokenBooks(st.books, nap.date) else st.books), nap)
  }

  // ----- a round ------------------------------------------------------------------------------------------

  /** A log opened in the first usable directory, `u` steps on. */
  function SoftOpened(st: State, w: World, u: nat): State
    requires st.at < |st.dirs| && u < |st.dirs| && Usable(st.dirs, w, st.minfree, Wrap(st.at, u, |st.dirs|))
    requires st.books.alogfile.Some? ==> st.books.trail != []
  {
    var i := Wrap(st.at, u, |st.dirs|);
    st.(dirs := AfterPass(st.dirs, w, st.minfree, st.at, u)[i := Probed(st.dirs[i], w.stat(i), st.minfree)],
        at := i, books := Switch(st.books, st.dirs[i].name, w.soft(i).date))
  }

  /** That log written to, down to the soft limit of its directory. */
  function SoftAudited(st: State, w: World, u: nat, sv: Service): State
    requires st.at < |st.dirs| && u < |st.dirs| && Usable(st.dirs, w, st.minfree, Wrap(st.at, u, |st.dirs|))
    requires st.books.alogfile.Some? ==> st.books.trail != []
  {
    Audited(SoftOpened(st, w, u), Floor(w.stat(Wrap(st.at, u, |st.dirs|)), st.minfree), sv)
  }

  /** The search for hard space, if there is any. */
  function HuntOf(st: State, w: World): (h: Hunt)
    requires st.at < |st.dirs|
    ensures h.at < |h.dirs| == |st.dirs|
    ensures h.found == Fresh ==> Succeeds(w.hard(h.at))
    ensures h.found == Reused ==> st.books.alogfile.Some? && !st.force
  {
    if AnyHard(st.dirs) then Search(st.dirs, w, st.at, 0, st.books.alogfile.Some? && !st.force)
    else Hunt(st.dirs, st.at, Nothing)
  }

  /** With no directory usable: hard space is used where it is found. */
  function Overflowed(st: State, w: World, sv: Service, nap: Nap): State
    requires st.at < |st.dirs| && (st.books.alogfile.Some? ==> st.books.trail != [])
  {
    var h := HuntOf(st, w);
    var q := st.(dirs := h.dirs, at := h.at);
    match h.found
    case Nothing => Starved(q, nap)
    case Reused => Audited(q, 0, sv)
    case Fresh => Audited(q.(books := Switch(q.books, q.dirs[q.at].name, w.hard(q.at).date)), 0, sv)
  }

  /** A round: the first usable directory is used, and without one what space is left. */
  function AfterRound(st: State, w: World, sv: Service, nap: Nap): State
    requires st.at < |st.dirs| && (st.books.alogfile.Some? ==> st.books.trail != [])
  {
    var u := FirstUsable(st.dirs, w, st.minfree, st.at, 0);
    if u < |st.dirs| then SoftAudited(st, w, u, sv)
    else Overflowed(st.(dirs := AfterPass(st.dirs, w, st.minfree, st.at, u)), w, sv, nap)
  }

  /** The list of directories read anew if that was asked for. */
  function Reloaded(st: State, r: Round): State {
    if st.reset then st.(dirs := r.list, at := 0, minfree := r.min, hung := 0, force := false, reset := false) else st
  }

  // ----- what every round keeps ---------------------------------------------------------------------------

  lemma {:induction false} BooksAfterSound(b: Books, error: Error, c: Signals, hung: nat, date: Date)
    requires b.trail != [] && !b.exited && b.alogfile.Some?
    ensures var r := BooksAfter(b, error, c, hung, date);
            Sound(r) && r.breaks == b.breaks && |r.trail| == |b.trail| && (!r.exited ==> r.alogfile == b.alogfile)
  {
    FinishSound(b, date);
    WriteSound(b, 0);
    FinishSound(Write(b, 0), date);
  }

  lemma {:induction false} AuditedLive(st: State, low: nat, sv: Service)
    requires st.at < |st.dirs| && Sound(st.books) && !st.books.exited && st.books.alogfile.Some?
    ensures var r := Audited(st, low, sv);
            Live(r) && r.books.breaks == st.books.breaks && |r.books.trail| == |st.books.trail|
  {
    hide Chain, BooksAfter, DirAfter, CaughtAfter;
    var c := Both(st.caught, sv.before);
    WriteSound(st.books, low);
    var written := if Any(c) then st.books else Write(st.books, low);
    BooksAfterSound(written, ErrorOf(c, sv), SignalsOf(c, sv), st.hung, sv.date);
  }

  lemma {:induction false} StarvedLive(st: State, nap: Nap)
    requires Live(st) && !st.books.exited
    ensures var r := Starved(st, nap).books;
            && Live(Starved(st, nap)) && |r.trail| == |st.books.trail|
            && r.breaks == st.books.breaks + if st.books.alogfile.Some? then {|r.trail| - 1} else {}
  {
    if st.books.alogfile.Some? {
      BreakSound(st.books, nap.date);
    }
  }

  /** No directory is usable, and none with hard space is found. */
  predicate NoSpace(st: State, w: World) {
    && st.at < |st.dirs| && FirstUsable(st.dirs, w, st.minfree, st.at, 0) == |st.dirs|
    && HuntOf(st.(dirs := AfterPass(st.dirs, w, st.minfree, st.at, |st.dirs|)), w).found == Nothing
  }

  /** A round finds no space exactly when no directory is usable, the open log cannot be kept, and each directory with
      hard space in which a log could be opened comes after an odd row of refusals, the ring not ending in one. */
  lemma {:induction false} NoSpaceExactly(st: State, w: World)
    requires st.at < |st.dirs|
    ensures var n := |st.dirs|;
            var left := AfterPass(st.dirs, w, st.minfree, st.at, n);
            NoSpace(st, w) <==>
            && (forall i :: 0 <= i < n ==> !Usable(st.dirs, w, st.minfree, i))
            && !(st.books.alogfile.Some? && !st.force && left[st.at].space == Hard)
            && (forall k :: 0 <= k < n && CanOpen(left, w, st.at, k) ==>
                  Refusals(left, w, st.at, k) % 2 == 1 && Refusals(left, w, st.at, n) % 2 == 0)
  {
    hide Search, AfterPass, Usable, Refusals;
    var n := |st.dirs|;
    FindsNothingExactly(AfterPass(st.dirs, w, st.minfree, st.at, n), w, st.at, st.books.alogfile.Some? && !st.force);
    if FirstUsable(st.dirs, w, st.minfree, st.at, 0) == n {
      forall i | 0 <= i < n ensures !Usable(st.dirs, w, st.minfree, i) {
        assert Wrap(st.at, Steps(st.at, i, n), n) == i;
      }
    }
  }

  /** A round opens a log, uses the open one, or finds no space; the chain breaks only in the last case, and only if a
      log is open. */
  lemma {:induction false} RoundKeeps(st: State, w: World, sv: Service, nap: Nap)
    requires Live(st) && !st.books.exited
    ensures var r := AfterRound(st, w, sv, nap);
            && Live(r) && |st.books.trail| <= |r.books.trail| <= |st.books.trail| + 1
            && r.books.breaks == st.books.breaks
               + if NoSpace(st, w) && st.books.alogfile.Some? then {|st.books.trail| - 1} else {}
  {
    hide SoftAudited, Overflowed, Sound, Search, AfterPass;
    var u := FirstUsable(st.dirs, w, st.minfree, st.at, 0);
    if u < |st.dirs| {
      SoftKeeps(st, w, u, sv);
    } else {
      OverflowKeeps(st.(dirs := AfterPass(st.dirs, w, st.minfree, st.at, u)), w, sv, nap);
    }
  }

  lemma {:induction false} SoftKeeps(st: State, w: World, u: nat, sv: Service)
    requires Live(st) && !st.books.exited && u < |st.dirs|
    requires Usable(st.dirs, w, st.minfree, Wrap(st.at, u, |st.dirs|))
    ensures var r := SoftAudited(st, w, u, sv);
            Live(r) && |r.books.trail| == |st.books.trail| + 1 && r.books.breaks == st.books.breaks
  {
    hide Audited, Chain, AfterPass;
    var q := SoftOpened(st, w, u);
    SwitchSound(st.books, q.dirs[q.at].name, w.soft(q.at).date);
    AuditedLive(q, Floor(w.stat(q.at), st.minfree), sv);
  }

  lemma {:induction false} OverflowKeeps(st: State, w: World, sv: Service, nap: Nap)
    requires Live(st) && !st.books.exited
    ensures var r, h := Overflowed(st, w, sv, nap), HuntOf(st, w);
            && Live(r) && |st.books.trail| <= |r.books.trail| <= |st.books.trail| + 1
            && r.books.breaks == st.books.breaks
               + if h.found == Nothing && st.books.alogfile.Some? then {|st.books.trail| - 1} else {}
  {
    hide Audited, Starved, Chain, Search;
    var h := HuntOf(st, w);
    var q := st.(dirs := h.dirs, at := h.at);
    match h.found
    case Nothing => StarvedLive(q, nap);
    case Reused => AuditedLive(q, 0, sv);
    case Fresh =>
      var name := q.dirs[q.at].name;
      SwitchSound(st.books, name, w.hard(q.at).date);
      AuditedLive(q.(books := Switch(q.books, name, w.hard(q.at).date)), 0, sv);
  }

  // ----- whole runs ---------------------------------------------------------------------------------------

  predicate Ready(st: State) {
    st.at < |st.dirs| && (st.books.alogfile.Some? ==> st.books.trail != [])
  }

  /** One more round, unless the daemon has exited. */
  function Step(st: State, r: Round): State {
    if st.books.exited || !Ready(Reloaded(st, r)) then st
    else AfterRound(Reloaded(st, r), r.world, r.service, r.nap)
  }

  /** The state after the first `n` rounds. */
  function RunOf(st: State, rounds: seq<Round>, n: nat): State
    requires n <= |rounds|
  {
    if n == 0 then st else Step(RunOf(st, rounds, n - 1), rounds[n - 1])
  }

  /** Nothing happens after the daemon exited. */
  lemma {:induction false} RunStops(st: State, rounds: seq<Round>, k: nat, n: nat)
    requires k <= n <= |rounds| && RunOf(st, rounds, k).books.exited
    ensures RunOf(st, rounds, n) == RunOf(st, rounds, k)
  {
    hide AfterRound;
    if k < n {
      RunStops(st, rounds, k, n - 1);
    }
  }

  /** The last log is open, it is log `i`, and there is no space. */
  predicate BreaksNow(q: State, r: Round, i: nat) {
    && !q.books.exited && q.books.alogfile.Some? && |q.books.trail| == i + 1
    && NoSpace(Reloaded(q, r), r.world)
  }

  lemma {:induction false} StepKeeps(q: State, r: Round, i: nat)
    requires Live(q) && r.list != []
    ensures Live(Step(q, r))
    ensures i in Step(q, r).books.breaks <==> i in q.books.breaks || BreaksNow(q, r, i)
  {
    hide AfterRound, Chain;
    if !q.books.exited {
      RoundKeeps(Reloaded(q, r), r.world, r.service, r.nap);
    }
  }

  predicate Listed(rounds: seq<Round>) {
    forall k :: 0 <= k < |rounds| ==> rounds[k].list != []
  }

  lemma {:induction false} RunLive(st: State, rounds: seq<Round>, n: nat)
    requires Live(st) && Listed(rounds) && n <= |rounds|
    ensures Live(RunOf(st, rounds, n))
  {
    hide Step, Sound;
    if n > 0 {
      RunLive(st, rounds, n - 1);
      StepKeeps(RunOf(st, rounds, n - 1), rounds[n - 1], 0);
    }
  }

  /** In round `k` log `i` was open and the last one, and there was no space. */
  predicate StarvesIn(st: State, rounds: seq<Round>, k: nat, i: nat) {
    k < |rounds| && BreaksNow(RunOf(st, rounds, k), rounds[k], i)
  }

  /** The chain is broken after a log if and only if it was so before the run, or some round of it found no space while
      that log was open. */
  lemma {:induction false} BreaksExactly(st: State, rounds: seq<Round>, n: nat, i: nat)
    requires Live(st) && Listed(rounds) && n <= |rounds|
    ensures i in RunOf(st, rounds, n).books.breaks <==>
            i in st.books.breaks || exists k: nat :: k < n && StarvesIn(st, rounds, k, i)
  {
    hide Step, Live, BreaksNow;
    if n > 0 {
      var m := n - 1;
      BreaksExactly(st, rounds, m, i);
      RunLive(st, rounds, m);
      StepKeeps(RunOf(st, rounds, m), rounds[m], i);
      assert StarvesIn(st, rounds, m, i) <==> BreaksNow(RunOf(st, rounds, m), rounds[m], i);
    }
  }

  /** Over a whole run: each log is linked to the next, except where a round found no space while it was open. */
  lemma {:induction false} RunLinked(st: State, rounds: seq<Round>, i: nat)
    requires Live(st) && Listed(rounds) && st.books.trail == [] && i + 1 < |RunOf(st, rounds, |rounds|).books.trail|
    ensures var b := RunOf(st, rounds, |rounds|).books;
            if exists k: nat :: StarvesIn(st, rounds, k, i) then Severed(b.trail[i], b.trail[i + 1])
            else Linked(b.trail[i], b.trail[i + 1], b.host)
  {
    hide RunOf, StarvesIn;
    var now := RunOf(st, rounds, |rounds|);
    BreaksExactly(st, rounds, |rounds|, i);
    RunLive(st, rounds, |rounds|);
    StarvesBefore(st, rounds, i);
    assert i !in st.books.breaks;
  }

  lemma {:induction false} StarvesBefore(st: State, rounds: seq<Round>, i: nat)
    ensures (exists k: nat :: StarvesIn(st, rounds, k, i)) <==>
            exists k: nat :: k < |rounds| && StarvesIn(st, rounds, k, i)
  {}
}
