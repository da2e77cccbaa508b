/** The audit daemon: the procedures, each against the function of the state that specifies it. */
module AuditDaemon {
  import opened Options
  import opened Ring
  import opened AuditTrail
  import opened AuditScan
  import opened AuditRounds

  datatype Limit = SoftLimit | HardLimit

  class Auditd {
    var minfree: nat
    var dirs: seq<Dir>
    var startdir: nat
    var thisdir: nat
    var limit: Limit
    var hungCount: nat
    var forceClose: bool
    var minfreeblocks: nat
    var caught: Signals
    var books: Books

    predicate Valid()
      reads this
    {
      thisdir < |dirs| && startdir < |dirs|
    }

    ghost function Now(reset: bool): State
      reads this
    {
      State(dirs, thisdir, minfree, hungCount, forceClose, reset, caught, books)
    }

    constructor (host: Host)
      ensures books == NoLogs().(host := host) && dirs == [] && caught == NO_SIGNALS
    {
      minfree, dirs, startdir, thisdir, limit := 0, [], 0, 0, SoftLimit;
      hungCount, forceClose, minfreeblocks, caught := 0, false, 0, NO_SIGNALS;
      books := NoLogs().(host := host);
    }

    /** Reads the list of directories anew. */
    method LoadAuditList(list: seq<Dir>, min: nat)
      requires list != []
      modifies this`minfree, this`dirs, this`startdir, this`thisdir, this`limit, this`hungCount, this`forceClose
      ensures Valid() && Now(false) == State(list, 0, min, 0, false, false, caught, books) && startdir == 0
      ensures limit.HardLimit?
    {
      dirs, startdir, thisdir := list, 0, 0;
      minfree := min;
      forceClose, hungCount, limit := false, 0, HardLimit;
    }

    /** Measures the space of directory `i`. */
    method TestSpace(i: nat, stat: Stat) returns (space: Space)
      requires i < |dirs|
      modifies this`dirs, this`minfreeblocks
      ensures dirs == old(dirs)[i := Probed(old(dirs)[i], stat, minfree)] && space == dirs[i].space
      ensures space == Soft ==> minfreeblocks == Floor(stat, minfree)
    {
      if dirs[i].space == StayFull || stat.Failed? {
        dirs := dirs[i := dirs[i].(space := Full)];
        minfreeblocks := 0;
      } else {
        minfreeblocks := minfree * (stat.total / 100);
        if stat.avail < AVAIL_MIN {
          dirs := dirs[i := dirs[i].(space := Full)];
        } else if stat.avail < minfreeblocks {
          dirs := dirs[i := dirs[i].(space := Hard)];
        } else {
          dirs := dirs[i := dirs[i].(space := Soft)];
        }
      }
      space := dirs[i].space;
    }

    /** Writes the trailer and renames the log that is open. */
    method CloseLog(oname: string, newname: string, date: Date) returns (trail: seq<Log>)
      requires !books.exited
      ensures books.alogfile.None? ==> trail == books.trail
      ensures books.alogfile.Some? ==>
                trail == Close(books.trail, newname, if oname == "" then Renamed(books.alogfile.value, date) else oname)
    {
      trail := books.trail;
      if books.alogfile.None? {
        return;
      }
      var oldname := oname;
      if oldname == "" {
        oldname := Renamed(books.alogfile.value, date);
      }
      trail := Close(trail, newname, oldname);
    }

    /** Opens a log in the current directory and closes the one before; a failure marks the directory full. */
    method OpenLog(o: Opening) returns (ok: bool)
      requires Valid() && !books.exited
      modifies this`dirs, this`thisdir, this`startdir, this`books
      ensures Valid() && ok == Succeeds(o)
      ensures ok ==> books == Switch(old(books), dirs[thisdir].name, o.date)
      ensures ok ==> dirs == old(dirs) && thisdir == startdir == old(thisdir)
      ensures !ok ==> books == old(books) && startdir == old(startdir)
      ensures !ok ==> dirs == MarkFull(old(dirs), old(thisdir)) && thisdir == Next(old(thisdir), |dirs|)
    {
      if !o.Opens? || !o.written {
        dirs := MarkFull(dirs, thisdir);
        thisdir := Next(thisdir, |dirs|);
        return false;
      }
      var newname := OpenName(dirs[thisdir].name, o.date, books.host);
      var oldname := "";
      if books.alogfile.Some? {
        oldname := Renamed(books.alogfile.value, o.date);
      }
      var trail := CloseLog(oldname, newname, o.date);
      SwitchSound(books, dirs[thisdir].name, o.date);
      books := books.(trail := trail + [Log(dirs[thisdir].name, o.date, oldname, Running)], alogfile := Some(newname));
      startdir := thisdir;
      return true;
    }

    /** Closes the log for good. */
    method ShutDown(date: Date)
      requires !books.exited
      modifies this`books
      ensures books == Finish(old(books), date).(exited := true)
    {
      FinishSound(books, date);
      var trail := CloseLog("", "", date);
      books := books.(trail := trail, exited := true);
    }

    /** Acts on the signals that came in, the alarm first. */
    method Interrupt(sv: Service) returns (reset: bool)
      requires !books.exited && books.alogfile.Some?
      modifies this`books, this`caught, this`forceClose
      ensures books == BooksAfter(old(books), Interrupted, old(caught), hungCount, sv.date)
      ensures caught == CaughtAfter(Interrupted, old(caught), hungCount)
      ensures forceClose == (old(forceClose) || Switches(Interrupted, old(caught)))
      ensures reset == Reloads(Interrupted, old(caught))
    {
      reset := false;
      if caught.alrm {
        ShutDown(sv.date);
        return;
      }
      if caught.term {
        if hungCount <= 0 {
          caught := NO_SIGNALS;
          WriteSound(books, 0);
          books := Write(books, 0);
        }
        ShutDown(sv.date);
        return;
      }
      if caught.hup {
        reset := true;
        caught := caught.(hup := false);
      }
      if caught.usr1 {
        forceClose := true;
        caught := caught.(usr1 := false);
      }
    }

    /** Acts on the error the service call returned with. */
    method React(error: Error, sv: Service) returns (reset: bool)
      requires Valid() && !books.exited && books.alogfile.Some?
      modifies this`books, this`caught, this`forceClose, this`dirs, this`minfreeblocks
      ensures Now(reset) == Reacted(old(Now(false)), error, sv)
    {
      hide Chain, ProperEnd;
      reset := false;
      match error {
        case Busy | Off =>
          books := books.(exited := true);
        case TooBig =>
          forceClose := true;
          reset := Interrupt(sv);
        case Interrupted =>
          reset := Interrupt(sv);
        case Unusable =>
          dirs := dirs[thisdir := dirs[thisdir].(space := StayFull)];
        case Other =>
          var space := TestSpace(thisdir, sv.stat);
      }
    }

    /** Writes records until something comes up. */
    method DoAuditing(floor: nat, sv: Service) returns (reset: bool)
      requires Valid() && !books.exited && books.alogfile.Some?
      modifies this`books, this`caught, this`forceClose, this`dirs, this`minfreeblocks, this`hungCount
      ensures Now(reset) == Audited(old(Now(false)), if limit.HardLimit? then 0 else floor, sv)
    {
      hide Reacted, Chain;
      forceClose := false;
      caught := Both(caught, sv.before);
      var error := Interrupted;
      if !Any(caught) {
        var low := if limit.HardLimit? then 0 else floor;
        WriteSound(books, low);
        books := Write(books, low);
        caught := Both(caught, sv.during);
        error := sv.error;
      }
      reset := React(error, sv);
      if !books.exited {
        hungCount := 0;
      }
    }

    /** Closes the log with nothing to follow and leaves none open. */
    method BreakLog(date: Date)
      requires !books.exited
      modifies this`books
      ensures books == BrokenBooks(old(books), date)
    {
      hide Chain, ProperEnd;
      var trail := CloseLog("", "", date);
      if books.alogfile.Some? {
        BreakSound(books, date);
        books := books.(trail := trail, alogfile := None, breaks := books.breaks + {|trail| - 1});
      }
    }

    /** No space anywhere: closes the log the first time, and waits. */
    method HandleAllHard(nap: Nap) returns (reset: bool)
      requires !books.exited
      modifies this`hungCount, this`books, this`caught
      ensures Now(reset) == Starved(old(Now(false)), nap)
    {
      hide Slept, BrokenBooks, Sound;
      hungCount := hungCount + 1;
      if hungCount == 1 {
        BreakLog(nap.date);
      }
      reset := MySleep(nap);
    }

    method MySleep(nap: Nap) returns (reset: bool)
      requires !books.exited
      modifies this`caught, this`books
      ensures Now(reset) == Slept(old(Now(false)), nap)
    {
      reset := false;
      caught := Both(caught, nap.signals);
      if caught.term {
        books := books.(exited := true);
        return;
      }
      reset := caught.hup;
      caught := caught.(alrm := false, hup := false, usr1 := false);
    }

    /** Opens a log in the current directory and writes to it. */
    method OpenAndAudit(o: Opening, sv: Service) returns (audited: bool, reset: bool)
      requires Valid() && !books.exited && limit.SoftLimit?
      modifies this`dirs, this`thisdir, this`startdir, this`books, this`caught, this`forceClose, this`minfreeblocks,
               this`hungCount
      ensures Valid() && audited == Succeeds(o)
      ensures audited ==> Now(reset) == Audited(NewLog(old(Now(false)), o), old(minfreeblocks), sv)
      ensures !audited ==> Now(reset) == NoLog(old(Now(false))) && startdir == old(startdir)
    {
      hide Audited;
      reset := false;
      audited := OpenLog(o);
      if audited {
        reset := DoAuditing(minfreeblocks, sv);
      }
    }

    /** Writes to a log in the current directory if it is under its soft limit and opens; goes on otherwise. */
    method TryDirectory(w: World, sv: Service) returns (audited: bool, reset: bool, hard: bool)
      requires Valid() && !books.exited
      modifies this`dirs, this`thisdir, this`startdir, this`books, this`limit, this`caught, this`forceClose,
               this`minfreeblocks, this`hungCount
      ensures Valid() && audited == Usable(old(dirs), w, minfree, old(thisdir))
      ensures audited ==>
                Now(reset) == Audited(HereOpened(old(Now(false)), w), Floor(w.stat(old(thisdir)), minfree), sv)
      ensures !audited ==> Now(reset) == HerePassed(old(Now(false)), w) && startdir == old(startdir)
      ensures !audited ==> hard == (Probed(old(dirs)[old(thisdir)], w.stat(old(thisdir)), minfree).space == Hard)
    {
      hide Audited;
      audited, reset, hard := false, false, false;
      var i := thisdir;
      var space := TestSpace(i, w.stat(i));
      if space == Soft {
        limit := SoftLimit;
        audited, reset := OpenAndAudit(w.soft(i), sv);
      } else {
        hard := space == Hard;
        thisdir := Next(thisdir, |dirs|);
      }
    }

    /** A turn of the soft pass, after `u` directories were passed by. */
    method PassOne(w: World, sv: Service, ghost st: State, ghost u: nat)
      returns (audited: bool, reset: bool, hard: bool)
      requires Valid() && !books.exited && st.at < |st.dirs| && u < |st.dirs| && st.minfree == minfree
      requires Now(false) == Passing(st, w, u) && NoneUsable(st.dirs, w, minfree, st.at, u)
      modifies this`dirs, this`thisdir, this`startdir, this`books, this`limit, this`caught, this`forceClose,
               this`minfreeblocks, this`hungCount
      ensures Valid()
      ensures audited ==> u == FirstUsable(st.dirs, w, minfree, st.at, 0) && Now(reset) == SoftAudited(st, w, u, sv)
      ensures !audited ==> Now(false) == Passing(st, w, u + 1) && NoneUsable(st.dirs, w, minfree, st.at, u + 1)
      ensures !audited ==> startdir == old(startdir)
      ensures !audited ==> (SawHard(st.dirs, w, minfree, st.at, u + 1) <==>
                            SawHard(st.dirs, w, minfree, st.at, u) || hard)
    {
      PassOn(st, w, u);
      audited, reset, hard := TryDirectory(w, sv);
      if audited {
        FirstUsableIs(st.dirs, w, minfree, st.at, u);
      }
    }

    /** Goes around the ring until a directory is usable. */
    method SoftPass(w: World, sv: Service) returns (audited: bool, reset: bool, allhard: bool)
      requires Valid() && !books.exited
      modifies this`dirs, this`thisdir, this`startdir, this`books, this`limit, this`caught, this`forceClose,
               this`minfreeblocks, this`hungCount
      ensures Valid()
      ensures var st, u := old(Now(false)), FirstUsable(old(dirs), w, minfree, old(thisdir), 0);
              && (audited <==> u < |st.dirs|)
              && (audited ==> Now(reset) == SoftAudited(st, w, u, sv))
              && (!audited ==>
                    Now(reset) == st.(dirs := AfterPass(st.dirs, w, minfree, st.at, u)) && thisdir == startdir
                    && allhard == !AnyHard(dirs))
    {
      hide SoftAudited, AfterPass, NoneUsable, Usable, FirstUsable, SawHard, AnyHard, Sound;
      ghost var st, u := Now(false), 0;
      startdir := thisdir;
      allhard := true;
      PassStarts(st, w);
      var again := true;
      while again
        invariant Valid() && u <= |st.dirs| && NoneUsable(st.dirs, w, minfree, st.at, u)
        invariant Now(false) == Passing(st, w, u) && startdir == st.at && !books.exited
        invariant again <==> u < |st.dirs|
        invariant allhard == !SawHard(st.dirs, w, minfree, st.at, u)
        decreases |st.dirs| - u
      {
        var hard;
        audited, reset, hard := PassOne(w, sv, st, u);
        if audited {
          return;
        }
        allhard := allhard && !hard;
        u := u + 1;
        again := thisdir != startdir;
      }
      FirstUsableIs(st.dirs, w, minfree, st.at, u);
      SawAll(st.dirs, w, minfree, st.at);
      audited, reset := false, false;
    }

    /** Opens a log in the current directory, and goes on if that fails, although opening already went on. */
    method TryHard(o: Opening, ghost s: nat, ghost e: nat) returns (ok: bool)
      requires Valid() && !books.exited && dirs[thisdir].space == Hard
      requires s < |dirs| && e < |dirs| && thisdir == Wrap(s, e, |dirs|)
      modifies this`dirs, this`thisdir, this`startdir, this`books
      ensures Valid() && ok == Succeeds(o)
      ensures ok ==> books == Switch(old(books), dirs[thisdir].name, o.date)
      ensures ok ==> dirs == old(dirs) && thisdir == old(thisdir)
      ensures !ok ==> dirs == MarkFull(old(dirs), old(thisdir)) && HardCount(dirs) < HardCount(old(dirs))
      ensures !ok ==> books == old(books) && startdir == old(startdir) && thisdir == Around(s, Skip(e, |dirs|), |dirs|)
    {
      HardDrops(dirs, thisdir);
      TwoOn(s, e, |dirs|);
      ok := OpenLog(o);
      if !ok {
        thisdir := Next(thisdir, |dirs|);
      }
    }

    /** Looks for a directory with hard space. */
    method HardSearch(w: World) returns (found: Finding)
      requires Valid() && !books.exited && thisdir == startdir
      modifies this`dirs, this`thisdir, this`startdir, this`books
      ensures Valid() && Hunt(dirs, thisdir, found)
                      == Search(old(dirs), w, old(thisdir), 0, old(books).alogfile.Some? && !forceClose)
      ensures books == if found == Fresh then Switch(old(books), dirs[thisdir].name, w.hard(thisdir).date)
                       else old(books)
    {
      hide Switch, Sound, HardCount, Succeeds;
      ghost var s: nat, n: nat, e: nat := thisdir, |dirs|, 0;
      ghost var reuse := books.alogfile.Some? && !forceClose;
      found := Nothing;
      var firsttime := true;
      while firsttime || thisdir != startdir
        invariant Valid() && |dirs| == n && e <= n && thisdir == Around(s, e, n) && startdir == s
        invariant firsttime <==> e == 0
        invariant Search(dirs, w, s, e, reuse) == Search(old(dirs), w, s, 0, reuse)
        invariant books == old(books)
        decreases HardCount(dirs), n - e
      {
        firsttime := false;
        if dirs[thisdir].space == Hard {
          if thisdir == startdir && books.alogfile.Some? && !forceClose {
            return Reused;
          }
          var ok := TryHard(w.hard(thisdir), s, e);
          if ok {
            return Fresh;
          }
          e := Skip(e, n);
        } else {
          thisdir := Next(thisdir, |dirs|);
          e := e + 1;
        }
      }
    }

    /** With no directory usable: uses hard space where there is any, and waits where there is none. */
    method Overflow(allhard: bool, w: World, sv: Service, nap: Nap) returns (reset: bool)
      requires Valid() && !books.exited && thisdir == startdir && allhard == !AnyHard(dirs)
      modifies this`dirs, this`thisdir, this`startdir, this`books, this`limit, this`caught, this`forceClose,
               this`minfreeblocks, this`hungCount
      ensures Valid() && Now(reset) == Overflowed(old(Now(false)), w, sv, nap)
    {
      hide Audited, Starved, Search, Sound, AnyHard;
      if allhard {
        reset := HandleAllHard(nap);
        return;
      }
      var found := HardSearch(w);
      limit := HardLimit;
      if found != Nothing {
        minfreeblocks := 0;
        reset := DoAuditing(minfreeblocks, sv);
      } else {
        reset := HandleAllHard(nap);
      }
    }

    /** One round: the soft pass, and what to do when it finds nothing. */
    method ProcessAudit(w: World, sv: Service, nap: Nap) returns (reset: bool)
      requires Valid() && !books.exited
      modifies this`dirs, this`thisdir, this`startdir, this`books, this`limit, this`caught, this`forceClose,
               this`minfreeblocks, this`hungCount
      ensures Valid() && Now(reset) == AfterRound(old(Now(false)), w, sv, nap)
    {
      hide SoftAudited, Overflowed;
      var audited, allhard;
      audited, reset, allhard := SoftPass(w, sv);
      if !audited {
        reset := Overflow(allhard, w, sv, nap);
      }
    }

    /** Reads the list of directories if that was asked for, and does a round. */
    method OneRound(r: Round, reread: bool) returns (reset: bool)
      requires thisdir < |dirs| && !books.exited && r.list != []
      modifies this
      ensures thisdir < |dirs| && Now(reset) == Step(old(Now(reread)), r)
    {
      hide AfterRound;
      if reread {
        LoadAuditList(r.list, r.min);
      }
      startdir := thisdir;
      reset := ProcessAudit(r.world, r.service, r.nap);
    }

    /** A run of the daemon: the list of directories is read, and rounds follow until the daemon exits. */
    method Serve(list: seq<Dir>, min: nat, rounds: seq<Round>) returns (reset: bool)
      requires list != [] && Listed(rounds) && !books.exited
      modifies this
      ensures Now(reset) == RunOf(State(list, 0, min, 0, false, false, old(caught), old(books)), rounds, |rounds|)
    {
      hide Step;
      LoadAuditList(list, min);
      ghost var st := Now(false);
      reset := false;
      var k := 0;
      while k < |rounds| && !books.exited
        invariant 0 <= k <= |rounds| && thisdir < |dirs| && Now(reset) == RunOf(st, rounds, k)
        invariant st == State(list, 0, min, 0, false, false, old(caught), old(books))
      {
        reset := OneRound(rounds[k], reset);
        k := k + 1;
      }
      if books.exited {
        RunStops(st, rounds, k, |rounds|);
      }
    }
  }

  /** A log opened in the current directory. */
  function NewLog(st: State, o: Opening): (r: State)
    requires st.at < |st.dirs| && o.Opens? && (st.books.alogfile.Some? ==> st.books.trail != [])
    ensures r.books.trail != []
  {
    st.(books := Switch(st.books, st.dirs[st.at].name, o.date))
  }

  /** No log opened: the directory is marked full, and the next one is current. */
  function NoLog(st: State): State
    requires st.at < |st.dirs|
  {
    st.(dirs := MarkFull(st.dirs, st.at), at := Next(st.at, |st.dirs|))
  }

  /** A log opened in the current directory, which is usable. */
  function HereOpened(st: State, w: World): State
    requires st.at < |st.dirs| && Usable(st.dirs, w, st.minfree, st.at)
    requires st.books.alogfile.Some? ==> st.books.trail != []
  {
    st.(dirs := st.dirs[st.at := Probed(st.dirs[st.at], w.stat(st.at), st.minfree)],
        books := Switch(st.books, st.dirs[st.at].name, w.soft(st.at).date))
  }

  /** The current directory passed by. */
  function HerePassed(st: State, w: World): State
    requires st.at < |st.dirs|
  {
    st.(dirs := st.dirs[st.at := PassedBy(st.dirs[st.at], w.stat(st.at), st.minfree)],
        at := Next(st.at, |st.dirs|))
  }

  /** `u` directories passed by. */
  function Passing(st: State, w: World, u: nat): State
    requires st.at < |st.dirs| && u <= |st.dirs|
  {
    st.(dirs := AfterPass(st.dirs, w, st.minfree, st.at, u), at := Around(st.at, u, |st.dirs|))
  }

  lemma {:induction false} PassStarts(st: State, w: World)
    requires st.at < |st.dirs|
    ensures Passing(st, w, 0) == st && !SawHard(st.dirs, w, st.minfree, st.at, 0)
    ensures NoneUsable(st.dirs, w, st.minfree, st.at, 0)
  {
    forall i | 0 <= i < |st.dirs| ensures AfterPass(st.dirs, w, st.minfree, st.at, 0)[i] == st.dirs[i] {
      assert Steps(st.at, i, |st.dirs|) >= 0;
    }
  }

  /** The next directory is used, or passed by. */
  lemma {:induction false} PassOn(st: State, w: World, u: nat)
    requires st.at < |st.dirs| && u < |st.dirs| && NoneUsable(st.dirs, w, st.minfree, st.at, u)
    requires st.books.alogfile.Some? ==> st.books.trail != []
    ensures var p, i := Passing(st, w, u), Wrap(st.at, u, |st.dirs|);
            && p.at == i && p.dirs[i] == st.dirs[i]
            && (Usable(p.dirs, w, st.minfree, i) <==> Usable(st.dirs, w, st.minfree, i))
            && (Usable(st.dirs, w, st.minfree, i) ==> HereOpened(p, w) == SoftOpened(st, w, u))
            && (!Usable(st.dirs, w, st.minfree, i) ==>
                  HerePassed(p, w) == Passing(st, w, u + 1) && NoneUsable(st.dirs, w, st.minfree, st.at, u + 1))
            && (SawHard(st.dirs, w, st.minfree, st.at, u + 1) <==>
                SawHard(st.dirs, w, st.minfree, st.at, u) || Probed(st.dirs[i], w.stat(i), st.minfree).space == Hard)
  {
    PassStep(st.dirs, w, st.minfree, st.at, u);
    SawMore(st.dirs, w, st.minfree, st.at, u);
  }

  lemma {:induction false} TwoOn(s: nat, e: nat, n: nat)
    requires s < n && e < n
    ensures Next(Next(Around(s, e, n), n), n) == Around(s, Skip(e, n), n)
  {}
}
