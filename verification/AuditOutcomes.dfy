/** What the rounds of the audit daemon mean in terms of free blocks, openings and signals. */
module AuditOutcomes {
  import opened Ring
  import opened AuditTrail
  import opened AuditScan
  import opened AuditRounds

  // ----- which directory is used ------------------------------------------------------------------------

  /** At least fifty blocks are free, and at least `minfree` hundredths of all blocks, rounded down. */
  predicate Roomy(d: Dir, stat: Stat, minfree: nat) {
    d.space != StayFull && stat.Blocks? && 50 <= stat.avail && minfree * (stat.total / 100) <= stat.avail
  }

  /** At least fifty blocks are free, but fewer than `minfree` hundredths of all blocks. */
  predicate Tight(d: Dir, stat: Stat, minfree: nat) {
    d.space != StayFull && stat.Blocks? && 50 <= stat.avail < minfree * (stat.total / 100)
  }

  /** What a test of space finds. */
  lemma {:induction false} SpaceIs(d: Dir, stat: Stat, minfree: nat)
    ensures var s := Probed(d, stat, minfree).space;
            && (s == Soft <==> Roomy(d, stat, minfree)) && (s == Hard <==> Tight(d, stat, minfree)) && s != StayFull
  {}

  /** What a whole pass leaves of a directory: hard space where there is some, or the mark that it is full. */
  lemma {:induction false} PassLeaves(dirs: seq<Dir>, w: World, minfree: nat, s: nat, i: nat)
    requires s < |dirs| && i < |dirs|
    ensures AfterPass(dirs, w, minfree, s, |dirs|)[i] ==
            Dir(dirs[i].name, if Tight(dirs[i], w.stat(i), minfree) then Hard else Full)
  {}

  /** The directory `k` places on has room, and a log can be opened in it. */
  predicate Fit(st: State, w: World, k: nat)
    requires st.at < |st.dirs| && k < |st.dirs|
  {
    var i := Wrap(st.at, k, |st.dirs|);
    Roomy(st.dirs[i], w.stat(i), st.minfree) && Succeeds(w.soft(i))
  }

  lemma {:induction false} UsableIs(st: State, w: World, k: nat)
    requires st.at < |st.dirs| && k < |st.dirs|
    ensures Usable(st.dirs, w, st.minfree, Wrap(st.at, k, |st.dirs|)) <==> Fit(st, w, k)
  {
    var i := Wrap(st.at, k, |st.dirs|);
    SpaceIs(st.dirs[i], w.stat(i), st.minfree);
  }

  /** No directory before the one `u` places on is fit. */
  predicate NoneFitBefore(st: State, w: World, u: nat)
    requires st.at < |st.dirs| && u <= |st.dirs|
  {
    forall k :: 0 <= k < u ==> !Fit(st, w, k)
  }

  lemma {:induction false} FirstFit(st: State, w: World, u: nat)
    requires st.at < |st.dirs| && u <= |st.dirs| && NoneFitBefore(st, w, u) && (u < |st.dirs| ==> Fit(st, w, u))
    ensures FirstUsable(st.dirs, w, st.minfree, st.at, 0) == u
  {
    hide Fit, Usable;
    forall k | 0 <= k <= u && k < |st.dirs|
      ensures Usable(st.dirs, w, st.minfree, Wrap(st.at, k, |st.dirs|)) <==> Fit(st, w, k)
    {
      UsableIs(st, w, k);
    }
    FirstUsableIs(st.dirs, w, st.minfree, st.at, u);
  }

  /** The new log of a round, and what was written to it: either records down to a number of free blocks, or none. */
  predicate OpenedIn(b: Book, r: Book, dir: string, floor: nat) {
    && |r.trail| == |b.trail| + 1 && r.trail[|b.trail|].dir == dir && b.served <= r.served
    && forall k :: |b.served| <= k < |r.served| ==>
         r.served[k].log == |b.trail| && (r.served[k].floor == floor || (r.served[k].floor == 0 && r.exited))
  }

  lemma {:induction false} AuditedServes(st: State, low: nat, sv: Service)
    requires st.at < |st.dirs| && st.books.trail != []
    ensures var r := Audited(st, low, sv).books;
            && |r.trail| == |st.books.trail| && st.books.served <= r.served
            && (forall i :: 0 <= i < |r.trail| ==> r.trail[i].dir == st.books.trail[i].dir)
            && forall k :: |st.books.served| <= k < |r.served| ==>
                 r.served[k].log == |r.trail| - 1 && (r.served[k].floor == low || (r.served[k].floor == 0 && r.exited))
  {
    hide DirAfter, CaughtAfter, Renamed;
  }

  /** A round opens its log in the first directory, from the current one on, that has the free blocks asked for and
      opens, and writes down to that number of free blocks. */
  lemma {:induction false} RoundUsesRoom(st: State, w: World, sv: Service, nap: Nap, u: nat)
    requires Ready(st) && u < |st.dirs| && Fit(st, w, u) && NoneFitBefore(st, w, u)
    ensures var i := Wrap(st.at, u, |st.dirs|);
            var r := AfterRound(st, w, sv, nap);
            r.at == i && OpenedIn(st.books, r.books, st.dirs[i].name, st.minfree * (w.stat(i).total / 100))
  {
    hide Audited, AfterPass, FirstUsable;
    FirstFit(st, w, u);
    UsableIs(st, w, u);
    AuditedServes(SoftOpened(st, w, u), Floor(w.stat(Wrap(st.at, u, |st.dirs|)), st.minfree), sv);
  }

  /** A new log is opened on less room only when no directory is fit, in one that has fifty blocks and opens, and then
      the records may use it up. */
  lemma {:induction false} RoundUsesTight(st: State, w: World, sv: Service, nap: Nap)
    requires Ready(st) && NoneFitBefore(st, w, |st.dirs|)
    ensures var r := AfterRound(st, w, sv, nap);
            |r.books.trail| > |st.books.trail| ==>
            && r.at < |st.dirs| && Tight(st.dirs[r.at], w.stat(r.at), st.minfree) && Succeeds(w.hard(r.at))
            && OpenedIn(st.books, r.books, st.dirs[r.at].name, 0)
  {
    hide Audited, Starved, FirstUsable, Search;
    FirstFit(st, w, |st.dirs|);
    var q := st.(dirs := AfterPass(st.dirs, w, st.minfree, st.at, |st.dirs|));
    var h := HuntOf(q, w);
    match h.found
    case Nothing =>
      StarvedServes(q.(dirs := h.dirs, at := h.at), nap);
    case Reused =>
      AuditedServes(q.(dirs := h.dirs, at := h.at), 0, sv);
    case Fresh =>
      HuntedTight(st, w, q);
      var p := q.(dirs := h.dirs, at := h.at);
      AuditedServes(p.(books := Switch(p.books, p.dirs[p.at].name, w.hard(p.at).date)), 0, sv);
  }

  lemma {:induction false} StarvedServes(st: State, nap: Nap)
    requires st.books.alogfile.Some? ==> st.books.trail != []
    ensures var r := Starved(st, nap).books;
            |r.trail| == |st.books.trail| && r.served == st.books.served && (st.hung == 0 ==> r.alogfile.None?)
  {
    hide Renamed;
  }

  /** What the soft pass leaves with hard space is what is tight. */
  lemma {:induction false} LeftHard(st: State, w: World, i: nat)
    requires st.at < |st.dirs| && i < |st.dirs|
    ensures AfterPass(st.dirs, w, st.minfree, st.at, |st.dirs|)[i].space == Hard <==>
            Tight(st.dirs[i], w.stat(i), st.minfree)
  {
    SpaceIs(st.dirs[i], w.stat(i), st.minfree);
    assert Steps(st.at, i, |st.dirs|) < |st.dirs|;
  }

  /** The search finds only directories with tight space. */
  lemma {:induction false} HuntedTight(st: State, w: World, q: State)
    requires Ready(st) && q == st.(dirs := AfterPass(st.dirs, w, st.minfree, st.at, |st.dirs|))
    ensures var h := HuntOf(q, w);
            h.found != Nothing ==> h.at < |st.dirs| && Tight(st.dirs[h.at], w.stat(h.at), st.minfree)
    ensures var h := HuntOf(q, w); h.at < |st.dirs| && h.dirs[h.at].name == st.dirs[h.at].name
    ensures HuntOf(q, w).found == Reused ==> HuntOf(q, w).at == st.at
  {
    hide Search;
    var h, n := HuntOf(q, w), |st.dirs|;
    forall i | 0 <= i < n ensures q.dirs[i].space == Hard <==> Tight(st.dirs[i], w.stat(i), st.minfree) {
      LeftHard(st, w, i);
    }
    if AnyHard(q.dirs) {
      SearchLaws(q.dirs, q.dirs, w, q.at, 0, q.books.alogfile.Some? && !q.force);
    }
  }

  // ----- when the open log is kept ------------------------------------------------------------------------

  /** A round goes on with the open log: no directory is fit, no new log was asked for, and the current directory is
      tight. */
  predicate Keeps(st: State, w: World)
    requires st.at < |st.dirs|
  {
    && NoneFitBefore(st, w, |st.dirs|) && st.books.alogfile.Some? && !st.force
    && Tight(st.dirs[st.at], w.stat(st.at), st.minfree)
  }

  /** What a round does with the open log: it keeps it exactly then; otherwise it opens a new one, or closes it for want
      of space. */
  lemma {:induction false} KeepsExactly(st: State, w: World, sv: Service, nap: Nap)
    requires Live(st) && !st.books.exited
    ensures var b, r := st.books, AfterRound(st, w, sv, nap).books;
            if Keeps(st, w) then |r.trail| == |b.trail| && r.breaks == b.breaks
            else if NoSpace(st, w) then |r.trail| == |b.trail| && r.served == b.served && r.alogfile.None?
            else |r.trail| == |b.trail| + 1
  {
    hide Audited, Starved, FirstUsable, Search, AfterPass, NoneFitBefore, Fit, Chain, Tight;
    var n, u := |st.dirs|, FirstUsable(st.dirs, w, st.minfree, st.at, 0);
    NoneFitIs(st, w, u);
    if u < n {
      AuditedServes(SoftOpened(st, w, u), Floor(w.stat(Wrap(st.at, u, n)), st.minfree), sv);
    } else {
      var q := st.(dirs := AfterPass(st.dirs, w, st.minfree, st.at, n));
      KeptOverflow(q, w, sv, nap);
      LeftHard(st, w, st.at);
    }
  }

  lemma {:induction false} NoneFitIs(st: State, w: World, u: nat)
    requires st.at < |st.dirs| && u == FirstUsable(st.dirs, w, st.minfree, st.at, 0)
    ensures NoneFitBefore(st, w, |st.dirs|) <==> u == |st.dirs|
    ensures u < |st.dirs| ==> Usable(st.dirs, w, st.minfree, Wrap(st.at, u, |st.dirs|))
  {
    hide Fit, Usable;
    forall k | 0 <= k < |st.dirs|
      ensures Usable(st.dirs, w, st.minfree, Wrap(st.at, k, |st.dirs|)) <==> Fit(st, w, k)
    {
      UsableIs(st, w, k);
    }
  }

  lemma {:induction false} KeptOverflow(q: State, w: World, sv: Service, nap: Nap)
    requires Live(q) && !q.books.exited
    ensures var b, r, h := q.books, Overflowed(q, w, sv, nap).books, HuntOf(q, w);
            && (h.found == Reused <==> b.alogfile.Some? && !q.force && q.dirs[q.at].space == Hard)
            && (h.found == Reused ==> |r.trail| == |b.trail| && r.breaks == b.breaks)
            && (h.found == Nothing ==> |r.trail| == |b.trail| && r.served == b.served && r.alogfile.None?)
            && (h.found == Fresh ==> |r.trail| == |b.trail| + 1)
  {
    hide Audited, Starved, Chain;
    var h := HuntOf(q, w);
    var p := q.(dirs := h.dirs, at := h.at);
    ReusedExactly(q.dirs, w, q.at, q.books.alogfile.Some? && !q.force);
    match h.found
    case Nothing =>
      StarvedServes(p, nap);
      StillNone(p, nap);
    case Reused =>
      AuditedServes(p, 0, sv);
      AuditedLive(p, 0, sv);
    case Fresh =>
      AuditedServes(p.(books := Switch(p.books, p.dirs[p.at].name, w.hard(p.at).date)), 0, sv);
  }

  lemma {:induction false} StillNone(st: State, nap: Nap)
    requires st.books.alogfile.Some? ==> st.books.trail != []
    requires !st.books.exited && st.hung > 0 ==> st.books.alogfile.None?
    requires !st.books.exited
    ensures Starved(st, nap).books.alogfile.None?
  {}

  /** The search reuses the open log exactly when it may and the first directory has hard space. */
  lemma {:induction false} ReusedExactly(dirs: seq<Dir>, w: World, s: nat, reuse: bool)
    requires s < |dirs|
    ensures Search(dirs, w, s, 0, reuse).found == Reused <==> reuse && dirs[s].space == Hard
    ensures dirs[s].space == Hard ==> AnyHard(dirs)
  {
    if !(reuse && dirs[s].space == Hard) {
      if dirs[s].space != Hard {
        NotReused(dirs, w, s, 1, reuse);
      } else if !Succeeds(w.hard(s)) {
        HardDrops(dirs, s);
        NotReused(MarkFull(dirs, s), w, s, Skip(0, |dirs|), reuse);
      }
    }
  }

  lemma {:induction false} NotReused(dirs: seq<Dir>, w: World, s: nat, e: nat, reuse: bool)
    requires s < |dirs| && 0 < e <= |dirs|
    ensures Search(dirs, w, s, e, reuse).found != Reused
    decreases HardCount(dirs), |dirs| - e
  {
    if e < |dirs| {
      var i := Wrap(s, e, |dirs|);
      if dirs[i].space != Hard {
        NotReused(dirs, w, s, e + 1, reuse);
      } else if !Succeeds(w.hard(i)) {
        HardDrops(dirs, i);
        NotReused(MarkFull(dirs, i), w, s, Skip(e, |dirs|), reuse);
      }
    }
  }

  // ----- signals ---------------------------------------------------------------------------------------------

  /** The signals that are there when the service would be called. */
  function Waiting(st: State, sv: Service): Signals {
    Signals(st.caught.alrm || sv.before.alrm, st.caught.term || sv.before.term, st.caught.hup || sv.before.hup,
            st.caught.usr1 || sv.before.usr1)
  }

  predicate None4(c: Signals) {
    !c.alrm && !c.term && !c.hup && !c.usr1
  }

  /** What is acted on in a service call: nothing unless it was interrupted, by a signal or by the size limit. */
  predicate ActsOnSignals(st: State, sv: Service) {
    !None4(Waiting(st, sv)) || sv.error.Interrupted? || sv.error.TooBig?
  }

  function Heard(st: State, sv: Service): Signals {
    var c := Waiting(st, sv);
    if !None4(c) then c else sv.during
  }

  /** The service call and what follows it: records are written unless a signal waits; an alarm or a request to end
      closes the log for good, the latter after more records if the daemon was not short of space; otherwise a hangup
      has the list read anew, and a user signal or the size limit asks for a new log. Other errors end the run at once,
      or mark the directory, and leave signals waiting. */
  lemma {:induction false} ServiceOutcome(st: State, low: nat, sv: Service)
    requires st.at < |st.dirs| && st.books.trail != [] && !st.books.exited && st.books.alogfile.Some?
    ensures var r, c := Audited(st, low, sv), Heard(st, sv);
            var wrote := if None4(Waiting(st, sv)) then [Served(|st.books.trail| - 1, low)] else [];
            if ActsOnSignals(st, sv) then
              && (r.books.exited <==> c.alrm || c.term)
              && r.books.served == st.books.served + wrote
                   + (if !c.alrm && c.term && st.hung == 0 then [Served(|st.books.trail| - 1, 0)] else [])
              && (r.books.exited ==> Last(r.books.trail).ending.Ended? && Last(r.books.trail).ending.trailer == "")
              && (!r.books.exited ==>
                    && r.reset == c.hup && (r.force <==> c.usr1 || (None4(Waiting(st, sv)) && sv.error.TooBig?))
                    && None4(r.caught) && r.dirs == st.dirs && r.books.trail == st.books.trail)
            else
              && r.books.served == st.books.served + wrote && r.books.trail == st.books.trail
              && (r.books.exited <==> sv.error.Busy? || sv.error.Off?)
              && r.caught == sv.during && !r.reset && !r.force
              && (sv.error.Unusable? ==> r.dirs == st.dirs[st.at := st.dirs[st.at].(space := StayFull)])
              && (sv.error.Other? ==> r.dirs == st.dirs[st.at := Probed(st.dirs[st.at], sv.stat, st.minfree)])
    ensures Audited(st, low, sv).books.exited || Audited(st, low, sv).hung == 0
  {
    hide Renamed, Probed;
    var x := st.books.served;
    assert forall a: Served, b: Served :: x + [a] + [b] == x + [a, b] && x + [] == x && x + [a] + [] == x + [a];
  }

  /** A state in which the service is about to be called, with the signals and the records as they were. */
  predicate AboutToServe(st: State, p: State) {
    && p.at < |p.dirs| && p.books.trail != [] && !p.books.exited && p.books.alogfile.Some?
    && p.caught == st.caught && p.hung == st.hung && p.books.served == st.books.served
  }

  /** A round that finds space calls the service. */
  lemma {:induction false} RoundServes(st: State, w: World, sv: Service, nap: Nap) returns (p: State, low: nat)
    requires Live(st) && !st.books.exited && !NoSpace(st, w)
    ensures AboutToServe(st, p) && AfterRound(st, w, sv, nap) == Audited(p, low, sv)
  {
    hide Audited, Starved, FirstUsable, Search, AfterPass, Chain;
    var n, u := |st.dirs|, FirstUsable(st.dirs, w, st.minfree, st.at, 0);
    if u < n {
      p, low := SoftOpened(st, w, u), Floor(w.stat(Wrap(st.at, u, n)), st.minfree);
    } else {
      var q := st.(dirs := AfterPass(st.dirs, w, st.minfree, st.at, n));
      var h := HuntOf(q, w);
      p, low := q.(dirs := h.dirs, at := h.at), 0;
      if h.found == Fresh {
        p := p.(books := Switch(p.books, p.dirs[p.at].name, w.hard(p.at).date));
      }
    }
  }

  /** A round that finds none sleeps: a request to end is obeyed at once, and otherwise every signal is dropped but a
      hangup, which has the list read anew. */
  lemma {:induction false} RoundSleeps(st: State, w: World, sv: Service, nap: Nap)
    requires Live(st) && !st.books.exited && NoSpace(st, w)
    ensures var r := AfterRound(st, w, sv, nap);
            && (r.books.exited <==> st.caught.term || nap.signals.term) && r.books.served == st.books.served
            && (!r.books.exited ==>
                  && r.reset == (st.caught.hup || nap.signals.hup) && None4(r.caught) && r.hung == st.hung + 1
                  && r.books.alogfile.None?)
  {
    hide Audited, FirstUsable, Search, AfterPass, Chain, Renamed;
  }

  /** A hangup is noticed in a round: it waited, came before the service call, interrupted it, or came in sleep. */
  predicate HangsUp(st: State, r: Round) {
    || st.caught.hup
    || if NoSpace(st, r.world) then r.nap.signals.hup
       else r.service.before.hup || (ActsOnSignals(st, r.service) && Heard(st, r.service).hup)
  }

  /** After a round in which a hangup is noticed, the daemon has ended or will read the list anew; if it waited when the
      round began, no records are written before that. One that comes with another error of the service call waits for
      the next round. */
  lemma {:induction false} HangupReloads(st: State, r: Round)
    requires Live(st) && !st.books.exited && r.list != []
    ensures var q, now := Step(st, r), Reloaded(st, r);
            && (HangsUp(now, r) ==> q.books.exited || q.reset)
            && (st.caught.hup && !q.books.exited ==> q.books.served == st.books.served)
            && (r.service.during.hup && !NoSpace(now, r.world) && None4(Waiting(st, r.service)) ==>
                  q.books.exited || q.reset || q.caught.hup)
  {
    hide AfterRound, Audited, Chain, NoSpace;
    var now := Reloaded(st, r);
    if NoSpace(now, r.world) {
      RoundSleeps(now, r.world, r.service, r.nap);
    } else {
      var p, low := RoundServes(now, r.world, r.service, r.nap);
      ServiceOutcome(p, low, r.service);
      assert Waiting(p, r.service) == Waiting(now, r.service) && Heard(p, r.service) == Heard(now, r.service);
    }
  }

  /** A round from the first directory of the list as it is then, with no request for a new log. */
  predicate StartsOver(st: State, r: Round, q: State) {
    var x := State(r.list, 0, r.min, 0, false, false, st.caught, st.books);
    Ready(x) && q == AfterRound(x, r.world, r.service, r.nap)
  }

  /** Over every run: a round in which a hangup is noticed, unless it ends the run, is followed by one that starts from
      the first directory of the list as it is then. */
  lemma {:induction false} RunReloads(st: State, rounds: seq<Round>, k: nat)
    requires Live(st) && Listed(rounds) && k + 1 < |rounds|
    ensures var now, after := RunOf(st, rounds, k), RunOf(st, rounds, k + 1);
            !now.books.exited && HangsUp(Reloaded(now, rounds[k]), rounds[k]) && !after.books.exited ==>
            StartsOver(after, rounds[k + 1], RunOf(st, rounds, k + 2))
  {
    hide AfterRound, Chain, HangsUp, NoSpace, Step;
    RunLive(st, rounds, k);
    RunLive(st, rounds, k + 1);
    var now, after := RunOf(st, rounds, k), RunOf(st, rounds, k + 1);
    if !now.books.exited {
      HangupReloads(now, rounds[k]);
    }
    if after.reset && !after.books.exited {
      ReloadStarts(after, rounds[k + 1]);
    }
  }

  lemma {:induction false} ReloadStarts(st: State, r: Round)
    requires st.reset && !st.books.exited && r.list != [] && Live(st)
    ensures StartsOver(st, r, Step(st, r))
  {
    hide AfterRound, Chain;
  }

  /** A user signal that is acted on, or the size limit, without a hangup: the next round does not go on with the open
      log, so records go to a new one. */
  lemma {:induction false} SwitchesLog(st: State, r: Round)
    requires Live(st) && !st.books.exited && st.force && !st.reset
    ensures var b, q := st.books, Step(st, r).books;
            && (|q.trail| == |b.trail| + 1 || (|q.trail| == |b.trail| && q.served == b.served && q.alogfile.None?))
            && forall k :: |b.served| <= k < |q.served| ==> q.served[k].log == |b.trail|
  {
    hide AfterRound, Chain, NoSpace, Fit, Tight;
    KeepsExactly(st, r.world, r.service, r.nap);
    if !NoSpace(st, r.world) {
      NewServed(st, r.world, r.service, r.nap);
    }
  }

  lemma {:induction false} NewServed(st: State, w: World, sv: Service, nap: Nap)
    requires Live(st) && !st.books.exited && !NoSpace(st, w)
    ensures var r := AfterRound(st, w, sv, nap).books;
            forall k :: |st.books.served| <= k < |r.served| ==> r.served[k].log == |r.trail| - 1
  {
    hide AfterRound, Audited, Chain, NoSpace;
    var p, low := RoundServes(st, w, sv, nap);
    AuditedServes(p, low, sv);
  }

  /** With a hangup at the same time the request for a new log is forgotten: where no directory of the new list is fit
      and its first is tight, records go on to the old log. */
  lemma {:induction false} SwitchForgotten(st: State, r: Round)
    requires Live(st) && !st.books.exited && st.force && st.reset && st.books.alogfile.Some? && r.list != []
    requires None4(st.caught) && None4(r.service.before) && r.service.error.Interrupted? && None4(r.service.during)
    requires NoneFitBefore(Reloaded(st, r), r.world, |r.list|) && Tight(r.list[0], r.world.stat(0), r.min)
    ensures var b, q := st.books, Step(st, r).books;
            |q.trail| == |b.trail| && |q.served| == |b.served| + 1 && q.served[|b.served|].log == |b.trail| - 1
  {
    hide AfterRound, Audited, Chain, NoSpace, Fit, Tight, NoneFitBefore;
    var now := Reloaded(st, r);
    KeepsExactly(now, r.world, r.service, r.nap);
    KeepsHasSpace(now, r.world, r.service, r.nap);
    var p, low := RoundServes(now, r.world, r.service, r.nap);
    AuditedServes(p, low, r.service);
    ServiceOutcome(p, low, r.service);
    assert |p.books.trail| == |st.books.trail|;
  }

  lemma {:induction false} KeepsHasSpace(st: State, w: World, sv: Service, nap: Nap)
    requires Live(st) && !st.books.exited && Keeps(st, w)
    ensures !NoSpace(st, w)
  {
    hide AfterRound, Chain, NoSpace, Fit, Tight, NoneFitBefore;
    KeepsExactly(st, w, sv, nap);
    RoundKeeps(st, w, sv, nap);
    assert |st.books.trail| - 1 !in st.books.breaks;
  }
}
