/** Merging of total-accounting files: records with the same key are summed into one. */
module TacctMerge {

  /** The amounts of a record. */
  datatype Field = Cpu0 | Cpu1 | Kcore0 | Kcore1 | Con0 | Con1 | Du | Pc | Sc | Dc | Fee

  datatype Tacct = Tacct(uid: int, name: string, amounts: Field -> real)

  function Get(t: Tacct, f: Field): real {
    t.amounts(f)
  }

  /** Adds every amount of `b` to those of `a`. */
  function TacctAdd(a: Tacct, b: Tacct): (r: Tacct)
    ensures r.uid == a.uid && r.name == a.name
    ensures forall f :: Get(r, f) == Get(a, f) + Get(b, f)
  {
    a.(amounts := (f: Field) => a.amounts(f) + b.amounts(f))
  }

  // ----- keys ----------------------------------------------------------------------------------

  /** What records are sorted and summed by; the name counts unless users are summed by number. */
  datatype Key = Key(uid: int, name: string)

  function KeyOf(t: Tacct, uidsum: bool): Key {
    Key(t.uid, if uidsum then "" else t.name)
  }

  /** The order of names as `strncmp` has it. */
  predicate NameLess(a: string, b: string) {
    b != [] && (a == [] || a[0] < b[0] || (a[0] == b[0] && NameLess(a[1..], b[1..])))
  }

  predicate KeyLess(a: Key, b: Key) {
    a.uid < b.uid || (a.uid == b.uid && NameLess(a.name, b.name))
  }

  lemma {:induction false} NameOrder(a: string, b: string)
    ensures NameLess(a, b) || NameLess(b, a) || a == b
    ensures !(NameLess(a, b) && NameLess(b, a)) && !NameLess(a, a)
  {
    if a != [] && b != [] {
      NameOrder(a[1..], b[1..]);
      assert a == [a[0]] + a[1..] && b == [b[0]] + b[1..];
    }
    if a != [] {
      NameIrreflexive(a);
    }
  }

  lemma {:induction false} NameIrreflexive(a: string)
    ensures !NameLess(a, a)
  {
    if a != [] {
      NameIrreflexive(a[1..]);
    }
  }

  lemma {:induction false} NameTransitive(a: string, b: string, c: string)
    requires NameLess(a, b) && NameLess(b, c)
    ensures NameLess(a, c)
  {
    if a != [] && a[0] == b[0] && b[0] == c[0] {
      NameTransitive(a[1..], b[1..], c[1..]);
    }
  }

  /** Keys are totally ordered. */
  lemma {:induction false} KeyOrder(a: Key, b: Key)
    ensures KeyLess(a, b) || KeyLess(b, a) || a == b
    ensures !(KeyLess(a, b) && KeyLess(b, a)) && !KeyLess(a, a)
  {
    NameOrder(a.name, b.name);
    NameIrreflexive(a.name);
  }

  lemma {:induction false} KeyTransitive(a: Key, b: Key, c: Key)
    requires KeyLess(a, b) && KeyLess(b, c)
    ensures KeyLess(a, c)
  {
    if a.uid == b.uid && b.uid == c.uid {
      NameTransitive(a.name, b.name, c.name);
    }
  }

  /** At the first place where two names differ, `a` has ended or has the smaller character. */
  ghost predicate NameBefore(a: string, b: string) {
    exists p: nat :: DifferAt(a, b, p) && (p == |a| || a[p] < b[p])
  }

  predicate DifferAt(a: string, b: string, p: nat) {
    p <= |a| && p < |b| && a[..p] == b[..p]
  }

  lemma {:induction false} NameLessIs(a: string, b: string)
    ensures NameLess(a, b) <==> NameBefore(a, b)
  {
    if a != [] && b != [] {
      NameLessIs(a[1..], b[1..]);
      if a[0] == b[0] && NameBefore(a[1..], b[1..]) {
        var p: nat :| DifferAt(a[1..], b[1..], p) && (p == |a[1..]| || a[1..][p] < b[1..][p]);
        assert a[..p + 1] == [a[0]] + a[1..][..p] && b[..p + 1] == [b[0]] + b[1..][..p];
        assert DifferAt(a, b, p + 1);
      }
      if p: nat :| DifferAt(a, b, p) && (p == |a| || a[p] < b[p]) {
        if p > 0 {
          assert a[0] == a[..p][0] == b[..p][0] == b[0];
          assert a[1..][..p - 1] == a[..p][1..] && b[1..][..p - 1] == b[..p][1..];
          assert DifferAt(a[1..], b[1..], p - 1);
        }
      }
    } else if b != [] {
      assert DifferAt(a, b, 0);
    }
  }

  /** Two records that are summed: of the same user, and of the same name unless names do not count. */
  predicate SameAccount(a: Tacct, b: Tacct, uidsum: bool) {
    a.uid == b.uid && (uidsum || a.name == b.name)
  }

  /** `a` comes before `b`: by number and then, if names count, by name. */
  ghost predicate Before(a: Tacct, b: Tacct, uidsum: bool) {
    a.uid < b.uid || (a.uid == b.uid && !uidsum && NameBefore(a.name, b.name))
  }

  /** The keys say which records are summed, and in which order they come. */
  lemma {:induction false} KeysAre(a: Tacct, b: Tacct, uidsum: bool)
    ensures KeyOf(a, uidsum) == KeyOf(b, uidsum) <==> SameAccount(a, b, uidsum)
    ensures KeyLess(KeyOf(a, uidsum), KeyOf(b, uidsum)) <==> Before(a, b, uidsum)
  {
    hide NameBefore, NameLess;
    NameLessIs(a.name, b.name);
    NameIrreflexive("");
  }

  // ----- sums over files -------------------------------------------------------------------------

  /** Which records to sum: all, or those with one key. */
  datatype Selection = Everything | Only(k: Key)

  predicate Selected(sel: Selection, t: Tacct, uidsum: bool) {
    sel.Everything? || KeyOf(t, uidsum) == sel.k
  }

  function Part(t: Tacct, f: Field, sel: Selection, uidsum: bool): real {
    if Selected(sel, t, uidsum) then Get(t, f) else 0.0
  }

  function SumFile(s: seq<Tacct>, f: Field, sel: Selection, uidsum: bool): real {
    if s == [] then 0.0 else Part(s[0], f, sel, uidsum) + SumFile(s[1..], f, sel, uidsum)
  }

  function SumFiles(files: seq<seq<Tacct>>, f: Field, sel: Selection, uidsum: bool): real {
    if files == [] then 0.0 else SumFile(files[0], f, sel, uidsum) + SumFiles(files[1..], f, sel, uidsum)
  }

  lemma {:induction false} SumFilesUpdate(files: seq<seq<Tacct>>, i: nat, s: seq<Tacct>, f: Field, sel: Selection,
                                          uidsum: bool)
    requires i < |files|
    ensures SumFiles(files[i := s], f, sel, uidsum)
         == SumFiles(files, f, sel, uidsum) - SumFile(files[i], f, sel, uidsum) + SumFile(s, f, sel, uidsum)
  {
    if i > 0 {
      SumFilesUpdate(files[1..], i - 1, s, f, sel, uidsum);
      assert files[i := s][1..] == files[1..][i - 1 := s];
    }
  }

  lemma {:induction false} SumFileAppend(s: seq<Tacct>, t: Tacct, f: Field, sel: Selection, uidsum: bool)
    ensures SumFile(s + [t], f, sel, uidsum) == SumFile(s, f, sel, uidsum) + Part(t, f, sel, uidsum)
  {
    if s == [] {
      assert s + [t] == [t];
      assert [t][1..] == [];
    } else {
      SumFileAppend(s[1..], t, f, sel, uidsum);
      assert (s + [t])[1..] == s[1..] + [t];
    }
  }

  /** Files that do not hold a key contribute nothing to its sum. */
  lemma {:induction false} SumFileAbsent(s: seq<Tacct>, f: Field, k: Key, uidsum: bool)
    requires forall i :: 0 <= i < |s| ==> KeyOf(s[i], uidsum) != k
    ensures SumFile(s, f, Only(k), uidsum) == 0.0
  {
    if s != [] {
      SumFileAbsent(s[1..], f, k, uidsum);
    }
  }

  lemma {:induction false} SumFilesAbsent(files: seq<seq<Tacct>>, f: Field, k: Key, uidsum: bool)
    requires forall i, j :: 0 <= i < |files| && 0 <= j < |files[i]| ==> KeyOf(files[i][j], uidsum) != k
    ensures SumFiles(files, f, Only(k), uidsum) == 0.0
  {
    if files != [] {
      assert forall j :: 0 <= j < |files[0]| ==> KeyOf(files[0][j], uidsum) != k;
      SumFileAbsent(files[0], f, k, uidsum);
      SumFilesAbsent(files[1..], f, k, uidsum);
    }
  }

  // ----- the procedures ------------------------------------------------------------------------

  /** The records of a file before one with an empty name, which is taken for the end of the file. */
  function Readable(s: seq<Tacct>): (r: seq<Tacct>)
    ensures |r| <= |s|
  {
    if s == [] || s[0].name == "" then [] else [s[0]] + Readable(s[1..])
  }

  /** All of a file is readable if and only if every record has a name. */
  lemma {:induction false} ReadableAll(s: seq<Tacct>)
    ensures Readable(s) == s <==> forall i :: 0 <= i < |s| ==> s[i].name != ""
  {
    if s != [] {
      ReadableAll(s[1..]);
      if s[0].name != "" {
        assert s == [s[0]] + s[1..];
        if Readable(s) == s {
          assert Readable(s)[1..] == Readable(s[1..]);
        }
      }
      if forall i :: 0 <= i < |s| ==> s[i].name != "" {
        assert forall i :: 0 <= i < |s[1..]| ==> s[1..][i].name != "";
      }
      if forall i :: 0 <= i < |s[1..]| ==> s[1..][i].name != "" {
        assert forall i :: 1 <= i < |s| ==> s[i] == s[1..][i - 1];
      }
    }
  }

  function AllReadable(files: seq<seq<Tacct>>): (r: seq<seq<Tacct>>)
    ensures |r| == |files|
  {
    seq(|files|, i requires 0 <= i < |files| => Readable(files[i]))
  }

  /** The rest of a file, from its first record without a name on. */
  function Unread(s: seq<Tacct>): seq<Tacct> {
    s[|Readable(s)|..]
  }

  function AllUnread(files: seq<seq<Tacct>>): (r: seq<seq<Tacct>>)
    ensures |r| == |files|
  {
    seq(|files|, i requires 0 <= i < |files| => Unread(files[i]))
  }

  lemma {:induction false} ReadableSplits(s: seq<Tacct>, f: Field, sel: Selection, uidsum: bool)
    ensures SumFile(s, f, sel, uidsum) == SumFile(Readable(s), f, sel, uidsum) + SumFile(Unread(s), f, sel, uidsum)
    ensures Unread(s) != [] ==> Unread(s)[0].name == ""
  {
    if s != [] && s[0].name != "" {
      ReadableSplits(s[1..], f, sel, uidsum);
      assert Readable(s)[1..] == Readable(s[1..]) && Unread(s) == Unread(s[1..]);
    } else {
      assert Unread(s) == s;
    }
  }

  /** What the merge misses of any amount is what the unread records hold, no more and no less. */
  lemma {:induction false} MissesUnread(files: seq<seq<Tacct>>, f: Field, sel: Selection, uidsum: bool)
    ensures SumFiles(files, f, sel, uidsum)
         == SumFiles(AllReadable(files), f, sel, uidsum) + SumFiles(AllUnread(files), f, sel, uidsum)
  {
    if files != [] {
      ReadableSplits(files[0], f, sel, uidsum);
      MissesUnread(files[1..], f, sel, uidsum);
      assert AllReadable(files)[1..] == AllReadable(files[1..]) && AllUnread(files)[1..] == AllUnread(files[1..]);
    }
  }

  /** A file of a record without a name and one with a name: nothing of the second is merged. */
  lemma {:induction false} NamelessEnds(f: Field, uidsum: bool)
    ensures var files := [[Tacct(0, "", (g: Field) => 0.0), Tacct(1, "adm", (g: Field) => 1.0)]];
            SumFiles(AllReadable(files), f, Everything, uidsum) == 0.0 && SumFiles(files, f, Everything, uidsum) == 1.0
  {
    var a, b := Tacct(0, "", (g: Field) => 0.0), Tacct(1, "adm", (g: Field) => 1.0);
    var files := [[a, b]];
    assert files[1..] == [] && AllReadable(files) == [[]] && AllReadable(files)[1..] == [];
    assert [a, b][1..] == [b] && [b][1..] == [];
    assert SumFile([b], f, Everything, uidsum) == 1.0;
  }

  /** What is left of each file: the current record, unless its name is empty, and the unread ones. */
  function Left(tb: seq<Tacct>, fl: seq<seq<Tacct>>): (r: seq<seq<Tacct>>)
    requires |tb| == |fl|
    ensures |r| == |tb|
  {
    seq(|tb|, i requires 0 <= i < |tb| => if tb[i].name == "" then [] else [tb[i]] + Readable(fl[i]))
  }

  predicate Loaded(tb: seq<Tacct>, fl: seq<seq<Tacct>>) {
    |tb| == |fl|
  }

  class Merger {
    const uidsum: bool
    var tb: seq<Tacct>
    var fl: seq<seq<Tacct>>
    var tt: Tacct
    var out: seq<Tacct>

    /** Opens the files and reads the first record of each. */
    constructor (uidsum: bool, files: seq<seq<Tacct>>)
      ensures this.uidsum == uidsum && out == [] && (forall f :: Get(tt, f) == 0.0)
      ensures Loaded(tb, fl) && Left(tb, fl) == AllReadable(files)
    {
      this.uidsum := uidsum;
      tb := seq(|files|, _ => Tacct(0, "", (f: Field) => 0.0));
      fl := files;
      tt := Tacct(0, "TOTAL", (f: Field) => 0.0);
      out := [];
      new;
      var i := 0;
      while i < |tb|
        invariant 0 <= i <= |tb| == |fl| == |files|
        invariant forall j :: i <= j < |tb| ==> fl[j] == files[j]
        invariant forall j :: 0 <= j < i ==>
                  Readable(files[j]) == if tb[j].name == "" then [] else [tb[j]] + Readable(fl[j])
        invariant out == [] && forall f :: Get(tt, f) == 0.0
      {
        var more := GetNext(i);
        i := i + 1;
      }
    }

    /** Reads the next record of file `i`. */
    method GetNext(i: nat) returns (more: bool)
      requires i < |tb| == |fl|
      modifies this`tb, this`fl
      ensures more <==> old(fl)[i] != []
      ensures fl == old(fl)[i := if more then old(fl)[i][1..] else []]
      ensures tb == old(tb)[i := if more then old(fl)[i][0] else old(tb)[i].(name := "")]
    {
      tb := tb[i := tb[i].(name := "")];
      if fl[i] == [] {
        return false;
      }
      tb := tb[i := fl[i][0]];
      fl := fl[i := fl[i][1..]];
      return true;
    }

    /** Drops the current record of file `i`. */
    method Advance(i: nat)
      requires Loaded(tb, fl) && i < |tb| && tb[i].name != ""
      modifies this`tb, this`fl
      ensures Loaded(tb, fl) && |tb| == |old(tb)|
      ensures Left(tb, fl) == Left(old(tb), old(fl))[i := Left(old(tb), old(fl))[i][1..]]
    {
      var more := GetNext(i);
      ghost var was, now := Left(old(tb), old(fl)), Left(tb, fl);
      assert was[i][1..] == Readable(old(fl)[i]);
      assert now[i] == Readable(old(fl)[i]);
    }

    /** The first file with the least current key, or -1 when all are used up. */
    method GetLeast() returns (least: int)
      ensures -1 <= least < |tb|
      ensures least == -1 ==> forall i :: 0 <= i < |tb| ==> tb[i].name == ""
      ensures least != -1 ==> tb[least].name != "" && LeastOf(tb, uidsum, least, |tb|)
      ensures least != -1 ==> FirstOfLeast(tb, uidsum, least)
    {
      least := -1;
      var tp := 0;
      while tp < |tb|
        invariant 0 <= tp <= |tb| && -1 <= least < tp
        invariant least == -1 ==> forall i :: 0 <= i < tp ==> tb[i].name == ""
        invariant least != -1 ==> tb[least].name != "" && LeastOf(tb, uidsum, least, tp)
      {
        if tb[tp].name != "" {
          if least == -1 {
            KeyOrder(KeyOf(tb[tp], uidsum), KeyOf(tb[tp], uidsum));
            least := tp;
          } else if KeyLess(KeyOf(tb[tp], uidsum), KeyOf(tb[least], uidsum)) {
            LessTakesOver(tb, uidsum, least, tp);
            least := tp;
          }
        }
        tp := tp + 1;
      }
      if least != -1 {
        LeastIsFirst(tb, uidsum, least);
      }
    }

    /** Writes the record with the least key. */
    method MergeOne(least: nat, ghost files: seq<seq<Tacct>>)
      requires Loaded(tb, fl) && least < |tb| && tb[least].name != "" && LeastOf(tb, uidsum, least, |tb|)
      requires Merging(files, Left(tb, fl), out, tt, uidsum)
      modifies this
      ensures Loaded(tb, fl) && |tb| == |old(tb)|
      ensures Merging(files, Left(tb, fl), out, tt, uidsum) && Size(Left(tb, fl)) < Size(Left(old(tb), old(fl)))
    {
      LeftFronts(tb, fl);
      ghost var start := Left(tb, fl);
      SumCurr(least);
      MergeStep(files, start, Left(tb, fl), old(tb), old(out), out, least, old(tt), tt, uidsum);
    }

    /** Merges the files until all are used up. */
    method MergeAll(ghost files: seq<seq<Tacct>>)
      requires Loaded(tb, fl) && Left(tb, fl) == files && out == [] && forall f :: Get(tt, f) == 0.0
      modifies this
      ensures Merged(files, out, tt, uidsum)
    {
      MergeStarts(files, tt, uidsum);
      var least := GetLeast();
      while least != -1
        invariant Loaded(tb, fl) && -1 <= least < |tb|
        invariant least == -1 ==> forall i :: 0 <= i < |tb| ==> tb[i].name == ""
        invariant least != -1 ==> tb[least].name != "" && LeastOf(tb, uidsum, least, |tb|)
        invariant Merging(files, Left(tb, fl), out, tt, uidsum)
        decreases Size(Left(tb, fl))
      {
        MergeOne(least, files);
        least := GetLeast();
      }
      MergeEnds(files, Left(tb, fl), out, tt, uidsum);
    }

    /** Adds the current record of file `tp` to the sum and the total. */
    method TakeOne(tp: nat, tc: Tacct, ghost start: seq<seq<Tacct>>, ghost l: nat) returns (r: Tacct)
      requires Loaded(tb, fl) && tp < |tb| && tb[tp].name != ""
      requires KeyOf(tb[tp], uidsum) == KeyOf(tc, uidsum) && Summed(start, Left(tb, fl), tc, l, tp, uidsum)
      modifies this`tb, this`fl, this`tt
      ensures Loaded(tb, fl) && |tb| == |old(tb)|
      ensures r.uid == tc.uid && r.name == tc.name
      ensures Summed(start, Left(tb, fl), r, l, tp, uidsum) && Size(Left(tb, fl)) < Size(Left(old(tb), old(fl)))
      ensures forall f :: Get(tt, f) - Get(r, f) == Get(old(tt), f) - Get(tc, f)
    {
      r := TacctAdd(tc, tb[tp]);
      tt := TacctAdd(tt, tb[tp]);
      AddOne(start, Left(tb, fl), tc, r, l, tp, uidsum);
      Advance(tp);
    }

    /** Sums the records whose key is that of the current record of file `l` into one, and writes it. */
    method SumCurr(l: nat)
      requires Loaded(tb, fl) && l < |tb| && tb[l].name != ""
      modifies this
      ensures Loaded(tb, fl) && |tb| == |old(tb)|
      ensures |out| == |old(out)| + 1 && out[..|old(out)|] == old(out)
      ensures Last(out).uid == old(tb)[l].uid && Last(out).name == old(tb)[l].name
      ensures Summed(Left(old(tb), old(fl)), Left(tb, fl), Last(out), l, |tb|, uidsum)
      ensures forall f :: Get(tt, f) == Get(old(tt), f) + Get(Last(out), f)
    {
      ghost var start := Left(tb, fl);
      var tc := tb[l];
      tt := TacctAdd(tt, tb[l]);
      Advance(l);
      StartSum(start, tc, l, uidsum);
      var tp := l;
      while tp < |tb|
        invariant l <= tp <= |tb| == |old(tb)| && Loaded(tb, fl)
        invariant tc.uid == old(tb)[l].uid && tc.name == old(tb)[l].name
        invariant Summed(start, Left(tb, fl), tc, l, tp, uidsum)
        invariant forall f :: Get(tt, f) == Get(old(tt), f) + Get(tc, f)
        invariant out == old(out)
        decreases Size(Left(tb, fl)), |tb| - tp
      {
        if tb[tp].name != "" && tb[tp].uid == tc.uid && (uidsum || tb[tp].name == tc.name) {
          tc := TakeOne(tp, tc, start, l);
        } else {
          PassFile(start, Left(tb, fl), tc, l, tp, uidsum);
          tp := tp + 1;
        }
      }
      out := out + [tc];
    }
  }

  /** The state of a merge of `files`. */
  ghost predicate Merging(files: seq<seq<Tacct>>, now: seq<seq<Tacct>>, out: seq<Tacct>, tt: Tacct, uidsum: bool) {
    && Accounted(files, now, out, uidsum)
    && (forall f :: Get(tt, f) == SumFile(out, f, Everything, uidsum))
    && (AllSorted(files, uidsum) ==>
          AllSorted(now, uidsum) && Increasing(out, uidsum)
          && forall i :: 0 <= i < |out| ==> AllAfter(now, KeyOf(out[i], uidsum), uidsum))
  }

  function Last(s: seq<Tacct>): Tacct
    requires s != []
  {
    s[|s| - 1]
  }

  function Size(files: seq<seq<Tacct>>): nat {
    if files == [] then 0 else |files[0]| + Size(files[1..])
  }

  lemma {:induction false} SizeDrops(files: seq<seq<Tacct>>, i: nat)
    requires i < |files| && files[i] != []
    ensures Size(files[i := files[i][1..]]) == Size(files) - 1
  {
    if i > 0 {
      SizeDrops(files[1..], i - 1);
      assert files[i := files[i][1..]][1..] == files[1..][i - 1 := files[1..][i - 1][1..]];
    }
  }

  /** Records with the key of `tc` were taken from the fronts of the files from `l` on and summed into `tc`; files
      before `tp` have no more of them in front. */
  ghost predicate Summed(start: seq<seq<Tacct>>, now: seq<seq<Tacct>>, tc: Tacct, l: nat, tp: nat, uidsum: bool) {
    && |start| == |now| && l <= tp <= |now|
    && (forall i :: 0 <= i < |now| ==> TakenFrom(start[i], now[i], KeyOf(tc, uidsum), uidsum))
    && (forall i :: 0 <= i < l ==> now[i] == start[i])
    && (forall i :: l <= i < tp ==> now[i] == [] || KeyOf(now[i][0], uidsum) != KeyOf(tc, uidsum))
    && (forall f, sel :: SumFiles(start, f, sel, uidsum) == SumFiles(now, f, sel, uidsum) + Part(tc, f, sel, uidsum))
  }

  ghost predicate Suffix(a: seq<Tacct>, b: seq<Tacct>) {
    |a| <= |b| && forall i :: 0 <= i < |a| ==> a[i] == b[|b| - |a| + i]
  }

  /** `now` is `s` without some records at its front, all with key `k`. */
  ghost predicate TakenFrom(s: seq<Tacct>, now: seq<Tacct>, k: Key, uidsum: bool) {
    Suffix(now, s) && forall j :: 0 <= j < |s| - |now| ==> KeyOf(s[j], uidsum) == k
  }

  lemma {:induction false} TakeAnother(s: seq<Tacct>, now: seq<Tacct>, k: Key, uidsum: bool)
    requires TakenFrom(s, now, k, uidsum) && now != [] && KeyOf(now[0], uidsum) == k
    ensures TakenFrom(s, now[1..], k, uidsum)
  {}

  lemma {:induction false} TakeFront(files: seq<seq<Tacct>>, i: nat, f: Field, sel: Selection, uidsum: bool)
    requires i < |files| && files[i] != []
    ensures SumFiles(files, f, sel, uidsum)
         == SumFiles(files[i := files[i][1..]], f, sel, uidsum) + Part(files[i][0], f, sel, uidsum)
  {
    SumFilesUpdate(files, i, files[i][1..], f, sel, uidsum);
  }

  lemma {:induction false} StartSum(start: seq<seq<Tacct>>, tc: Tacct, l: nat, uidsum: bool)
    requires l < |start| && start[l] != [] && start[l][0] == tc
    ensures Summed(start, start[l := start[l][1..]], tc, l, l, uidsum)
  {
    forall f, sel
      ensures SumFiles(start, f, sel, uidsum)
           == SumFiles(start[l := start[l][1..]], f, sel, uidsum) + Part(tc, f, sel, uidsum)
    {
      TakeFront(start, l, f, sel, uidsum);
    }
  }

  /** A file whose front has another key, or that is used up. */
  lemma {:induction false} PassFile(start: seq<seq<Tacct>>, now: seq<seq<Tacct>>, tc: Tacct, l: nat, tp: nat,
                                    uidsum: bool)
    requires Summed(start, now, tc, l, tp, uidsum) && tp < |now|
    requires now[tp] == [] || KeyOf(now[tp][0], uidsum) != KeyOf(tc, uidsum)
    ensures Summed(start, now, tc, l, tp + 1, uidsum)
  {}

  /** One more record with the same key. */
  lemma {:induction false} AddOne(start: seq<seq<Tacct>>, now: seq<seq<Tacct>>, was: Tacct, tc: Tacct, l: nat, tp: nat,
                                  uidsum: bool)
    requires Summed(start, now, was, l, tp, uidsum) && tp < |now| && now[tp] != []
    requires KeyOf(now[tp][0], uidsum) == KeyOf(was, uidsum) == KeyOf(tc, uidsum)
    requires forall f :: Get(tc, f) == Get(was, f) + Get(now[tp][0], f)
    ensures Summed(start, now[tp := now[tp][1..]], tc, l, tp, uidsum)
    ensures Size(now[tp := now[tp][1..]]) < Size(now)
  {
    SizeDrops(now, tp);
    TakeAnother(start[tp], now[tp], KeyOf(tc, uidsum), uidsum);
    var next := now[tp := now[tp][1..]];
    forall f, sel
      ensures SumFiles(start, f, sel, uidsum) == SumFiles(next, f, sel, uidsum) + Part(tc, f, sel, uidsum)
    {
      TakeFront(now, tp, f, sel, uidsum);
      assert SumFiles(start, f, sel, uidsum) == SumFiles(now, f, sel, uidsum) + Part(was, f, sel, uidsum);
    }
  }

  predicate SortedFile(s: seq<Tacct>, uidsum: bool) {
    forall i, j :: 0 <= i < j < |s| ==> !KeyLess(KeyOf(s[j], uidsum), KeyOf(s[i], uidsum))
  }

  /** Among the first `n` files, `least` has the least key, and those before it a greater one. */
  predicate LeastOf(tb: seq<Tacct>, uidsum: bool, least: int, n: int) {
    && 0 <= least < n <= |tb|
    && forall i :: 0 <= i < n && tb[i].name != "" ==>
         && !KeyLess(KeyOf(tb[i], uidsum), KeyOf(tb[least], uidsum))
         && (i < least ==> KeyLess(KeyOf(tb[least], uidsum), KeyOf(tb[i], uidsum)))
  }

  /** No current record comes before that of file `least`, and those of the files before it come after. */
  ghost predicate FirstOfLeast(tb: seq<Tacct>, uidsum: bool, least: int) {
    && 0 <= least < |tb|
    && forall i :: 0 <= i < |tb| && tb[i].name != "" ==>
         && !Before(tb[i], tb[least], uidsum)
         && (i < least ==> Before(tb[least], tb[i], uidsum))
  }

  lemma {:induction false} LeastIsFirst(tb: seq<Tacct>, uidsum: bool, least: int)
    requires LeastOf(tb, uidsum, least, |tb|)
    ensures FirstOfLeast(tb, uidsum, least)
  {
    hide Before, KeyLess;
    forall i | 0 <= i < |tb| && tb[i].name != ""
      ensures !Before(tb[i], tb[least], uidsum) && (i < least ==> Before(tb[least], tb[i], uidsum))
    {
      KeysAre(tb[i], tb[least], uidsum);
      KeysAre(tb[least], tb[i], uidsum);
    }
  }

  lemma {:induction false} LessTakesOver(tb: seq<Tacct>, uidsum: bool, least: int, n: int)
    requires LeastOf(tb, uidsum, least, n) && n < |tb| && KeyLess(KeyOf(tb[n], uidsum), KeyOf(tb[least], uidsum))
    ensures LeastOf(tb, uidsum, n, n + 1)
  {
    var k, l := KeyOf(tb[n], uidsum), KeyOf(tb[least], uidsum);
    forall i | 0 <= i < n + 1 && tb[i].name != ""
      ensures !KeyLess(KeyOf(tb[i], uidsum), k) && (i < n ==> KeyLess(k, KeyOf(tb[i], uidsum)))
    {
      var x := KeyOf(tb[i], uidsum);
      KeyOrder(x, k);
      KeyOrder(x, l);
      if i < n && x != l {
        KeyTransitive(k, l, x);
      }
    }
  }

  // ----- the whole merge ---------------------------------------------------------------------------

  predicate AllSorted(files: seq<seq<Tacct>>, uidsum: bool) {
    forall i :: 0 <= i < |files| ==> SortedFile(files[i], uidsum)
  }

  /** Every record left has a key greater than `k`. */
  predicate AllAfter(files: seq<seq<Tacct>>, k: Key, uidsum: bool) {
    forall i, j :: 0 <= i < |files| && 0 <= j < |files[i]| ==> KeyLess(k, KeyOf(files[i][j], uidsum))
  }

  /** A record in a sorted file is not less than the first. */
  lemma {:induction false} NotBeforeFirst(s: seq<Tacct>, j: nat, k: Key, uidsum: bool)
    requires SortedFile(s, uidsum) && j < |s| && KeyLess(k, KeyOf(s[0], uidsum))
    ensures KeyLess(k, KeyOf(s[j], uidsum))
  {
    if j > 0 {
      KeyOrder(KeyOf(s[j], uidsum), KeyOf(s[0], uidsum));
      if KeyOf(s[j], uidsum) != KeyOf(s[0], uidsum) {
        KeyTransitive(k, KeyOf(s[0], uidsum), KeyOf(s[j], uidsum));
      }
    }
  }

  lemma {:induction false} SuffixSorted(a: seq<Tacct>, b: seq<Tacct>, uidsum: bool)
    requires Suffix(a, b) && SortedFile(b, uidsum)
    ensures SortedFile(a, uidsum)
  {}

  /** When files are sorted, summing the least key leaves only greater ones. */
  lemma {:induction false} LeavesGreater(start: seq<seq<Tacct>>, now: seq<seq<Tacct>>, tb: seq<Tacct>, tc: Tacct,
                                         l: nat, uidsum: bool)
    requires AllSorted(start, uidsum) && Summed(start, now, tc, l, |now|, uidsum)
    requires Fronts(tb, start) && LeastOf(tb, uidsum, l, |tb|) && KeyOf(tb[l], uidsum) == KeyOf(tc, uidsum)
    ensures AllSorted(now, uidsum) && AllAfter(now, KeyOf(tc, uidsum), uidsum)
  {
    var k := KeyOf(tc, uidsum);
    forall i | 0 <= i < |now| ensures SortedFile(now[i], uidsum) {
      SuffixSorted(now[i], start[i], uidsum);
    }
    forall i, j | 0 <= i < |now| && 0 <= j < |now[i]| ensures KeyLess(k, KeyOf(now[i][j], uidsum)) {
      FrontGreater(start[i], now[i], tb, i, l, k, uidsum);
      NotBeforeFirst(now[i], j, k, uidsum);
    }
  }

  lemma {:induction false} FrontGreater(s: seq<Tacct>, now: seq<Tacct>, tb: seq<Tacct>, i: nat, l: nat, k: Key,
                                        uidsum: bool)
    requires LeastOf(tb, uidsum, l, |tb|) && i < |tb| && KeyOf(tb[l], uidsum) == k
    requires SortedFile(s, uidsum) && Suffix(now, s) && now != [] && s[0] == tb[i] && tb[i].name != ""
    requires if i < l then now == s else KeyOf(now[0], uidsum) != k
    ensures KeyLess(k, KeyOf(now[0], uidsum))
  {
    if i >= l {
      var x, h := KeyOf(s[0], uidsum), KeyOf(now[0], uidsum);
      KeyOrder(x, k);
      KeyOrder(h, k);
      KeyOrder(h, x);
      if KeyLess(h, k) && x != k {
        KeyTransitive(h, k, x);
      }
    }
  }

  /** The keys of the output increase. */
  predicate Increasing(out: seq<Tacct>, uidsum: bool) {
    forall i, j :: 0 <= i < j < |out| ==> KeyLess(KeyOf(out[i], uidsum), KeyOf(out[j], uidsum))
  }

  /** In an output with increasing keys, a key's sum is the one record that has it. */
  lemma {:induction false} UniqueSum(out: seq<Tacct>, i: nat, f: Field, uidsum: bool)
    requires Increasing(out, uidsum) && i < |out|
    ensures SumFile(out, f, Only(KeyOf(out[i], uidsum)), uidsum) == Get(out[i], f)
  {
    var k := KeyOf(out[i], uidsum);
    if i == 0 {
      forall j | 1 <= j < |out| ensures KeyOf(out[j], uidsum) != k {
        KeyOrder(k, k);
      }
      SumFileAbsent(out[1..], f, k, uidsum);
    } else {
      KeyOrder(k, k);
      UniqueSum(out[1..], i - 1, f, uidsum);
    }
  }

  /** Every input record left the files into an output record with its key, or is still there. */
  ghost predicate Accounted(files: seq<seq<Tacct>>, now: seq<seq<Tacct>>, out: seq<Tacct>, uidsum: bool) {
    && |files| == |now|
    && (forall i :: 0 <= i < |now| ==> Suffix(now[i], files[i]))
    && (forall i, j :: 0 <= i < |now| && 0 <= j < |files[i]| - |now[i]| ==>
          HasKey(out, KeyOf(files[i][j], uidsum), uidsum))
    && (forall i :: 0 <= i < |out| ==> InFiles(files, out[i], uidsum))
    && (forall f, sel ::
          SumFiles(files, f, sel, uidsum) == SumFiles(now, f, sel, uidsum) + SumFile(out, f, sel, uidsum))
  }

  /** Some record of the files has the key of `t`. */
  predicate InFiles(files: seq<seq<Tacct>>, t: Tacct, uidsum: bool) {
    exists i, j :: 0 <= i < |files| && 0 <= j < |files[i]| && KeyOf(files[i][j], uidsum) == KeyOf(t, uidsum)
  }

  predicate HasKey(out: seq<Tacct>, k: Key, uidsum: bool) {
    exists i :: 0 <= i < |out| && KeyOf(out[i], uidsum) == k
  }

  lemma {:induction false} AccountedStep(files: seq<seq<Tacct>>, start: seq<seq<Tacct>>, now: seq<seq<Tacct>>,
                                         out: seq<Tacct>, tc: Tacct, l: nat, uidsum: bool)
    requires Accounted(files, start, out, uidsum) && Summed(start, now, tc, l, |now|, uidsum)
    requires l < |start| && start[l] != [] && KeyOf(start[l][0], uidsum) == KeyOf(tc, uidsum)
    ensures Accounted(files, now, out + [tc], uidsum)
  {
    var more := out + [tc];
    assert InFiles(files, tc, uidsum) by {
      assert files[l][|files[l]| - |start[l]|] == start[l][0];
    }
    assert KeyOf(more[|out|], uidsum) == KeyOf(tc, uidsum);
    forall k | HasKey(out, k, uidsum) ensures HasKey(more, k, uidsum) {
      var i :| 0 <= i < |out| && KeyOf(out[i], uidsum) == k;
      assert KeyOf(more[i], uidsum) == k;
    }
    forall i, j | 0 <= i < |now| && 0 <= j < |files[i]| - |now[i]|
      ensures HasKey(more, KeyOf(files[i][j], uidsum), uidsum)
    {
      var gone := |files[i]| - |start[i]|;
      assert TakenFrom(start[i], now[i], KeyOf(tc, uidsum), uidsum);
      if j >= gone {
        assert files[i][j] == start[i][j - gone];
      }
    }
    forall f, sel
      ensures SumFiles(files, f, sel, uidsum) == SumFiles(now, f, sel, uidsum) + SumFile(more, f, sel, uidsum)
    {
      SumFileAppend(out, tc, f, sel, uidsum);
      assert SumFiles(files, f, sel, uidsum) == SumFiles(start, f, sel, uidsum) + SumFile(out, f, sel, uidsum);
      assert SumFiles(start, f, sel, uidsum) == SumFiles(now, f, sel, uidsum) + Part(tc, f, sel, uidsum);
    }
  }

  lemma {:induction false} MergeStarts(files: seq<seq<Tacct>>, tt: Tacct, uidsum: bool)
    requires forall f :: Get(tt, f) == 0.0
    ensures Merging(files, files, [], tt, uidsum)
  {}

  /** Summing shrinks what is left. */
  lemma {:induction false} SummedShrinks(start: seq<seq<Tacct>>, now: seq<seq<Tacct>>)
    requires |start| == |now| && forall i :: 0 <= i < |now| ==> |now[i]| <= |start[i]|
    ensures Size(now) <= Size(start)
    ensures (exists i :: 0 <= i < |now| && |now[i]| < |start[i]|) ==> Size(now) < Size(start)
  {
    if now != [] {
      SummedShrinks(start[1..], now[1..]);
      if i :| 0 <= i < |now| && |now[i]| < |start[i]| {
        if i > 0 {
          assert |now[1..][i - 1]| < |start[1..][i - 1]|;
        }
      }
    }
  }

  /** `tb` holds the first record of each of the files. */
  ghost predicate Fronts(tb: seq<Tacct>, files: seq<seq<Tacct>>) {
    && |tb| == |files|
    && forall i :: 0 <= i < |tb| ==> (files[i] == [] <==> tb[i].name == "") && (files[i] != [] ==> files[i][0] == tb[i])
  }

  lemma {:induction false} LeftFronts(tb: seq<Tacct>, fl: seq<seq<Tacct>>)
    requires Loaded(tb, fl)
    ensures Fronts(tb, Left(tb, fl))
  {}

  /** One record more in the output. */
  lemma {:induction false} MergeStep(files: seq<seq<Tacct>>, start: seq<seq<Tacct>>, now: seq<seq<Tacct>>,
                                     tb: seq<Tacct>, was: seq<Tacct>, out: seq<Tacct>, l: nat, total: Tacct, tt: Tacct,
                                     uidsum: bool)
    requires Merging(files, start, was, total, uidsum) && |out| == |was| + 1 && out[..|was|] == was
    requires Summed(start, now, Last(out), l, |now|, uidsum)
    requires Fronts(tb, start) && LeastOf(tb, uidsum, l, |tb|) && tb[l].name != ""
    requires Last(out).uid == tb[l].uid && Last(out).name == tb[l].name
    requires forall f :: Get(tt, f) == Get(total, f) + Get(Last(out), f)
    ensures Merging(files, now, out, tt, uidsum)
    ensures Size(now) < Size(start)
  {
    hide Accounted, Summed, KeyLess, AllSorted, AllAfter, Increasing, SumFile, Size;
    var tc := Last(out);
    assert out == was + [tc];
    AccountedStep(files, start, now, was, tc, l, uidsum);
    forall f ensures Get(tt, f) == SumFile(out, f, Everything, uidsum) {
      SumFileAppend(was, tc, f, Everything, uidsum);
    }
    if AllSorted(files, uidsum) {
      OrderStep(start, now, tb, was, tc, l, uidsum);
    }
    TakenShrinks(start, now, tc, l, uidsum);
  }

  lemma {:induction false} TakenShrinks(start: seq<seq<Tacct>>, now: seq<seq<Tacct>>, tc: Tacct, l: nat, uidsum: bool)
    requires Summed(start, now, tc, l, |now|, uidsum)
    requires l < |start| && start[l] != [] && KeyOf(start[l][0], uidsum) == KeyOf(tc, uidsum)
    ensures Size(now) < Size(start)
  {
    hide SumFiles, KeyOf;
    SummedShrinks(start, now);
    assert |now[l]| < |start[l]|;
  }

  /** The output stays in order, and all that is left comes after it. */
  lemma {:induction false} OrderStep(start: seq<seq<Tacct>>, now: seq<seq<Tacct>>, tb: seq<Tacct>, was: seq<Tacct>,
                                     tc: Tacct, l: nat, uidsum: bool)
    requires AllSorted(start, uidsum) && Increasing(was, uidsum)
    requires forall i :: 0 <= i < |was| ==> AllAfter(start, KeyOf(was[i], uidsum), uidsum)
    requires Summed(start, now, tc, l, |now|, uidsum) && Fronts(tb, start) && LeastOf(tb, uidsum, l, |tb|)
    requires tb[l].name != "" && KeyOf(tb[l], uidsum) == KeyOf(tc, uidsum)
    ensures AllSorted(now, uidsum) && Increasing(was + [tc], uidsum)
    ensures forall i :: 0 <= i <= |was| ==> AllAfter(now, KeyOf((was + [tc])[i], uidsum), uidsum)
  {
    hide SumFiles, KeyOf;
    LeavesGreater(start, now, tb, tc, l, uidsum);
    OutputGrows(start, now, was, tc, l, uidsum);
  }

  lemma {:induction false} OutputGrows(start: seq<seq<Tacct>>, now: seq<seq<Tacct>>, out: seq<Tacct>, tc: Tacct, l: nat,
                                       uidsum: bool)
    requires Increasing(out, uidsum) && l < |start| == |now| && start[l] != []
    requires KeyOf(start[l][0], uidsum) == KeyOf(tc, uidsum) && AllAfter(now, KeyOf(tc, uidsum), uidsum)
    requires forall i :: 0 <= i < |out| ==> AllAfter(start, KeyOf(out[i], uidsum), uidsum)
    requires forall i :: 0 <= i < |now| ==> Suffix(now[i], start[i])
    ensures Increasing(out + [tc], uidsum)
    ensures forall i :: 0 <= i < |out + [tc]| ==> AllAfter(now, KeyOf((out + [tc])[i], uidsum), uidsum)
  {
    var more := out + [tc];
    forall i | 0 <= i < |out|
      ensures KeyLess(KeyOf(out[i], uidsum), KeyOf(tc, uidsum)) && AllAfter(now, KeyOf(out[i], uidsum), uidsum)
    {
      assert AllAfter(start, KeyOf(out[i], uidsum), uidsum);
      assert KeyLess(KeyOf(out[i], uidsum), KeyOf(start[l][0], uidsum));
      forall a, b | 0 <= a < |now| && 0 <= b < |now[a]|
        ensures KeyLess(KeyOf(out[i], uidsum), KeyOf(now[a][b], uidsum))
      {
        assert now[a][b] == start[a][|start[a]| - |now[a]| + b];
      }
    }
  }

  /** `out` and `tt` are the merge of `files`: the grand total is the sum of all records, each key's lines sum to its
      records, and no key is lost or made up. When the files are sorted, there is one line per key, in order. */
  ghost predicate Merged(files: seq<seq<Tacct>>, out: seq<Tacct>, tt: Tacct, uidsum: bool) {
    && (forall f :: Get(tt, f) == SumFiles(files, f, Everything, uidsum))
    && (forall f, k :: SumFile(out, f, Only(k), uidsum) == SumFiles(files, f, Only(k), uidsum))
    && (forall i, j :: 0 <= i < |files| && 0 <= j < |files[i]| ==> HasKey(out, KeyOf(files[i][j], uidsum), uidsum))
    && (forall i :: 0 <= i < |out| ==> InFiles(files, out[i], uidsum))
    && (AllSorted(files, uidsum) ==>
          Increasing(out, uidsum)
          && forall i, f :: 0 <= i < |out| ==>
               Get(out[i], f) == SumFiles(files, f, Only(KeyOf(out[i], uidsum)), uidsum))
  }

  lemma {:induction false} NothingLeft(now: seq<seq<Tacct>>, f: Field, sel: Selection, uidsum: bool)
    requires forall i :: 0 <= i < |now| ==> now[i] == []
    ensures SumFiles(now, f, sel, uidsum) == 0.0
  {
    if now != [] {
      NothingLeft(now[1..], f, sel, uidsum);
    }
  }

  lemma {:induction false} MergeEnds(files: seq<seq<Tacct>>, now: seq<seq<Tacct>>, out: seq<Tacct>, tt: Tacct,
                                     uidsum: bool)
    requires Merging(files, now, out, tt, uidsum) && forall i :: 0 <= i < |now| ==> now[i] == []
    ensures Merged(files, out, tt, uidsum)
  {
    forall f, sel ensures SumFile(out, f, sel, uidsum) == SumFiles(files, f, sel, uidsum) {
      NothingLeft(now, f, sel, uidsum);
      assert SumFiles(files, f, sel, uidsum) == SumFiles(now, f, sel, uidsum) + SumFile(out, f, sel, uidsum);
    }
    if AllSorted(files, uidsum) {
      forall i, f | 0 <= i < |out|
        ensures Get(out[i], f) == SumFiles(files, f, Only(KeyOf(out[i], uidsum)), uidsum)
      {
        UniqueSum(out, i, f, uidsum);
      }
    }
  }

  // ----- the merge by numbers and names ------------------------------------------------------------

  /** The sum of the records of a file that are of the account of `t`. */
  function AccountFile(s: seq<Tacct>, t: Tacct, f: Field, uidsum: bool): real {
    if s == [] then 0.0
    else (if SameAccount(s[0], t, uidsum) then Get(s[0], f) else 0.0) + AccountFile(s[1..], t, f, uidsum)
  }

  function AccountFiles(files: seq<seq<Tacct>>, t: Tacct, f: Field, uidsum: bool): real {
    if files == [] then 0.0 else AccountFile(files[0], t, f, uidsum) + AccountFiles(files[1..], t, f, uidsum)
  }

  lemma {:induction false} AccountFileIs(s: seq<Tacct>, t: Tacct, f: Field, uidsum: bool)
    ensures AccountFile(s, t, f, uidsum) == SumFile(s, f, Only(KeyOf(t, uidsum)), uidsum)
  {
    if s != [] {
      KeysAre(s[0], t, uidsum);
      AccountFileIs(s[1..], t, f, uidsum);
    }
  }

  lemma {:induction false} AccountFilesIs(files: seq<seq<Tacct>>, t: Tacct, f: Field, uidsum: bool)
    ensures AccountFiles(files, t, f, uidsum) == SumFiles(files, f, Only(KeyOf(t, uidsum)), uidsum)
  {
    if files != [] {
      AccountFileIs(files[0], t, f, uidsum);
      AccountFilesIs(files[1..], t, f, uidsum);
    }
  }

  /** No record of a file comes before an earlier one. */
  ghost predicate InOrder(s: seq<Tacct>, uidsum: bool) {
    forall i, j :: 0 <= i < j < |s| ==> !Before(s[j], s[i], uidsum)
  }

  lemma {:induction false} InOrderIs(s: seq<Tacct>, uidsum: bool)
    ensures InOrder(s, uidsum) <==> SortedFile(s, uidsum)
  {
    hide Before, KeyLess;
    forall i, j | 0 <= i < j < |s|
      ensures Before(s[j], s[i], uidsum) <==> KeyLess(KeyOf(s[j], uidsum), KeyOf(s[i], uidsum))
    {
      KeysAre(s[j], s[i], uidsum);
    }
  }

  /** One line for each account, in order of number and then name, each with the sum of its account's records. */
  ghost predicate OneLineEach(files: seq<seq<Tacct>>, out: seq<Tacct>, uidsum: bool) {
    && (forall i, j :: 0 <= i < j < |out| ==> Before(out[i], out[j], uidsum))
    && (forall i, f :: 0 <= i < |out| ==> Get(out[i], f) == AccountFiles(files, out[i], f, uidsum))
  }

  /** Some line is of the account of `t`. */
  predicate HasLine(out: seq<Tacct>, t: Tacct, uidsum: bool) {
    exists k :: 0 <= k < |out| && SameAccount(out[k], t, uidsum)
  }

  lemma {:induction false} HasLineIs(out: seq<Tacct>, t: Tacct, uidsum: bool)
    ensures HasLine(out, t, uidsum) <==> HasKey(out, KeyOf(t, uidsum), uidsum)
  {
    hide KeyOf, SameAccount;
    forall k | 0 <= k < |out| ensures SameAccount(out[k], t, uidsum) <==> KeyOf(out[k], uidsum) == KeyOf(t, uidsum) {
      KeysAre(out[k], t, uidsum);
    }
  }

  /** Some record of the files is of the account of `t`. */
  predicate HasRecord(files: seq<seq<Tacct>>, t: Tacct, uidsum: bool) {
    exists i :: 0 <= i < |files| && HasLine(files[i], t, uidsum)
  }

  /** What merging means, by numbers and names: every account has lines and every line an account, the lines of an
      account add up to its records, and from files in order there is one line each, in order. */
  lemma {:induction false} MergedByName(files: seq<seq<Tacct>>, out: seq<Tacct>, tt: Tacct, uidsum: bool)
    requires Merged(files, out, tt, uidsum)
    ensures forall i, j :: 0 <= i < |files| && 0 <= j < |files[i]| ==> HasLine(out, files[i][j], uidsum)
    ensures forall k :: 0 <= k < |out| ==> HasRecord(files, out[k], uidsum)
    ensures forall t, f :: AccountFile(out, t, f, uidsum) == AccountFiles(files, t, f, uidsum)
    ensures (forall i :: 0 <= i < |files| ==> InOrder(files[i], uidsum)) ==> OneLineEach(files, out, uidsum)
  {
    hide KeyOf, KeyLess, Before, InOrder, SortedFile, HasKey, OneLineEach, SumFiles, SumFile, Increasing, HasLine;
    forall t, f ensures AccountFile(out, t, f, uidsum) == AccountFiles(files, t, f, uidsum) {
      AccountFileIs(out, t, f, uidsum);
      AccountFilesIs(files, t, f, uidsum);
    }
    forall i, j | 0 <= i < |files| && 0 <= j < |files[i]| ensures HasLine(out, files[i][j], uidsum) {
      HasLineIs(out, files[i][j], uidsum);
    }
    forall k | 0 <= k < |out| ensures HasRecord(files, out[k], uidsum) {
      RecordOf(files, out[k], uidsum);
    }
    if forall i :: 0 <= i < |files| ==> InOrder(files[i], uidsum) {
      MergedInOrder(files, out, tt, uidsum);
    }
  }

  lemma {:induction false} RecordOf(files: seq<seq<Tacct>>, t: Tacct, uidsum: bool)
    requires InFiles(files, t, uidsum)
    ensures HasRecord(files, t, uidsum)
  {
    hide KeyOf, HasLine;
    var i, j :| 0 <= i < |files| && 0 <= j < |files[i]| && KeyOf(files[i][j], uidsum) == KeyOf(t, uidsum);
    HasLineIs(files[i], t, uidsum);
  }

  lemma {:induction false} MergedInOrder(files: seq<seq<Tacct>>, out: seq<Tacct>, tt: Tacct, uidsum: bool)
    requires Merged(files, out, tt, uidsum) && forall i :: 0 <= i < |files| ==> InOrder(files[i], uidsum)
    ensures OneLineEach(files, out, uidsum)
  {
    hide KeyOf, KeyLess, Before, InOrder, SortedFile;
    forall i | 0 <= i < |files| ensures SortedFile(files[i], uidsum) {
      InOrderIs(files[i], uidsum);
    }
    forall i, j | 0 <= i < j < |out| ensures Before(out[i], out[j], uidsum) {
      KeysAre(out[i], out[j], uidsum);
    }
    forall i, f | 0 <= i < |out| ensures Get(out[i], f) == AccountFiles(files, out[i], f, uidsum) {
      AccountFilesIs(files, out[i], f, uidsum);
    }
  }
}
